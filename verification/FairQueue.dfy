/** Weighted fair queuing with start tags (gateway/fairqueue.py).

Tags are reals.  The binary heap of the library is represented by its contents in arrival order;
popping it takes the entry with the least (finish tag, arrival number).
 */
module FairQueue {
  import opened Basics

  /** `weight` is the effective, positive weight; `finish - cost / weight` is the start tag. */
  datatype Entry<T> = Entry(finish: real, ticket: nat, item: T, cls: string, weight: real, cost: real) {
    predicate Positive() {
      weight > 0.0 && cost >= 0.0
    }

    /** Service time in units of virtual time. */
    function Share(): real {
      if weight > 0.0 then cost / weight else 0.0
    }

    function Start(): real {
      finish - Share()
    }
  }

  datatype Queue<T> = Queue(heap: seq<Entry<T>>, lastFinish: map<string, real>, vt: real, ticket: nat)

  function Empty<T>(): Queue<T> {
    Queue([], map[], 0.0, 0)
  }

  // ------------------------------------------------------------------ operations

  function RMax(x: real, y: real): real {
    if x < y then y else x
  }

  function EffectiveWeight(w: real): (r: real)
    ensures r > 0.0
  {
    if w > 0.0 then w else 0.000000001
  }

  function LastFinish<T>(q: Queue<T>, cls: string): real {
    if cls in q.lastFinish then q.lastFinish[cls] else 0.0
  }

  /** The entry that enqueuing would add. */
  function NewEntry<T>(q: Queue<T>, item: T, cls: string, weight: real, cost: real): Entry<T> {
    var w := EffectiveWeight(weight);
    Entry(RMax(q.vt, LastFinish(q, cls)) + cost / w, q.ticket, item, cls, w, cost)
  }

  function Enqueue<T>(q: Queue<T>, item: T, cls: string, weight: real, cost: real): Queue<T> {
    var e := NewEntry(q, item, cls, weight, cost);
    Queue(q.heap + [e], q.lastFinish[cls := e.finish], q.vt, q.ticket + 1)
  }

  predicate Before<T>(a: Entry<T>, b: Entry<T>) {
    a.finish < b.finish || (a.finish == b.finish && a.ticket < b.ticket)
  }

  /** Position of the least entry. */
  function LeastIndex<T>(heap: seq<Entry<T>>): (i: nat)
    requires heap != []
    ensures i < |heap| && forall j :: 0 <= j < |heap| ==> !Before(heap[j], heap[i])
  {
    if |heap| == 1 then 0 else
      var i := LeastIndex(heap[..|heap| - 1]);
      if Before(heap[|heap| - 1], heap[i]) then |heap| - 1 else i
  }

  function Front<T>(q: Queue<T>): Entry<T>
    requires q.heap != []
  {
    q.heap[LeastIndex(q.heap)]
  }

  function Dequeue<T>(q: Queue<T>): Queue<T>
    requires q.heap != []
  {
    var i := LeastIndex(q.heap);
    q.(heap := q.heap[..i] + q.heap[i + 1..], vt := RMax(q.vt, q.heap[i].finish))
  }

  /** No tag is smaller than that of entry `i`, and among equal tags it arrived first. */
  ghost predicate Least<T>(heap: seq<Entry<T>>, i: nat) {
    i < |heap| && forall j :: 0 <= j < |heap| ==>
      heap[i].finish < heap[j].finish || (heap[i].finish == heap[j].finish && heap[i].ticket <= heap[j].ticket)
  }

  /** What the tag of a new entry is, in terms of the call. */
  lemma TagStep<T>(q: Queue<T>, item: T, cls: string, weight: real, cost: real)
    ensures var last := if cls in q.lastFinish then q.lastFinish[cls] else 0.0;
      var start := if q.vt < last then last else q.vt;
      var finish := NewEntry(q, item, cls, weight, cost).finish;
      if weight > 0.0 then (finish - start) * weight == cost else finish == start + cost * 1000000000.0
  {
    if weight > 0.0 { DivMul(cost, weight); }
  }

  // ------------------------------------------------------------------ the mutable queue

  datatype Popped<T> = IndexError | Item(item: T)

  class WeightedFairQueue<T> {
    var heap: seq<Entry<T>>
    var lastFinish: map<string, real>
    var vt: real
    var ticket: nat

    ghost function State(): Queue<T>
      reads this
    {
      Queue(heap, lastFinish, vt, ticket)
    }

    constructor ()
      ensures State() == Empty()
    {
      heap, lastFinish, vt, ticket := [], map[], 0.0, 0;
    }

    function Len(): nat
      reads this
    {
      |heap|
    }

    /** Returns the finish tag: the later of virtual time and the last finish of the class, plus the cost
        divided by the weight. */
    method Push(item: T, cls: string, weight: real, cost: real) returns (finish: real)
      modifies this
      ensures State() == Enqueue(old(State()), item, cls, weight, cost)
      ensures finish == NewEntry(old(State()), item, cls, weight, cost).finish
      ensures var last := if cls in old(lastFinish) then old(lastFinish)[cls] else 0.0;
        var start := if old(vt) < last then last else old(vt);
        if weight > 0.0 then (finish - start) * weight == cost else finish == start + cost * 1000000000.0
      ensures cls in lastFinish && lastFinish[cls] == finish && vt == old(vt)
    {
      TagStep(old(State()), item, cls, weight, cost);
      var w := if weight > 0.0 then weight else 0.000000001;
      var last := if cls in lastFinish then lastFinish[cls] else 0.0;
      var start := if vt < last then last else vt;
      finish := start + cost / w;
      lastFinish := lastFinish[cls := finish];
      heap := heap + [Entry(finish, ticket, item, cls, w, cost)];
      ticket := ticket + 1;
    }

    method Pop() returns (r: Popped<T>)
      modifies this
      ensures old(heap) == [] ==> r == IndexError && State() == old(State())
      ensures old(heap) != [] ==> r == Item(Front(old(State())).item) && State() == Dequeue(old(State()))
      ensures old(heap) != [] ==> exists i: nat ::
        Least(old(heap), i) && r == Item(old(heap)[i].item) && heap == old(heap)[..i] + old(heap)[i + 1..]
    {
      if heap == [] {
        return IndexError;
      }
      var i := LeastIndex(heap);
      assert Least(heap, i);
      var e := heap[i];
      heap := heap[..i] + heap[i + 1..];
      if e.finish > vt {
        vt := e.finish;
      }
      r := Item(e.item);
    }
  }

  // ------------------------------------------------------------------ invariant

  /** The waiting entries of one class, in arrival order. */
  function OfClass<T>(heap: seq<Entry<T>>, cls: string): seq<Entry<T>> {
    if heap == [] then [] else
      var rest := OfClass(heap[..|heap| - 1], cls);
      var e := heap[|heap| - 1];
      if e.cls == cls then rest + [e] else rest
  }

  lemma {:induction false} OfClassConcat<T>(s: seq<Entry<T>>, r: seq<Entry<T>>, cls: string)
    ensures OfClass(s + r, cls) == OfClass(s, cls) + OfClass(r, cls)
  {
    if r == [] {
      assert s + r == s;
    } else {
      var init := r[..|r| - 1];
      assert (s + r)[..|s + r| - 1] == s + init;
      OfClassConcat(s, init, cls);
    }
  }

  lemma {:induction false} OfClassMember<T>(heap: seq<Entry<T>>, cls: string, k: nat)
    requires k < |OfClass(heap, cls)|
    ensures OfClass(heap, cls)[k] in heap && OfClass(heap, cls)[k].cls == cls
  {
    var init := heap[..|heap| - 1];
    assert heap == init + [heap[|heap| - 1]];
    if k < |OfClass(init, cls)| {
      OfClassMember(init, cls, k);
    }
  }

  /** Each entry starts where the one before it finishes. */
  ghost predicate Chained<T>(s: seq<Entry<T>>) {
    && (forall i :: 0 <= i < |s| ==> s[i].Positive())
    && (forall i, j :: 0 <= i && j == i + 1 && j < |s| ==> s[j].Start() == s[i].finish)
  }

  /** A waiting class is a chain whose head starts no later than virtual time; an idle class has
      finished by then. */
  ghost predicate ClassOk<T>(q: Queue<T>, cls: string) {
    var s := OfClass(q.heap, cls);
    && Chained(s)
    && (s == [] ==> LastFinish(q, cls) <= q.vt)
    && (s != [] ==> s[0].Start() <= q.vt && LastFinish(q, cls) == s[|s| - 1].finish)
  }

  ghost predicate Good<T>(q: Queue<T>) {
    && q.vt >= 0.0
    && (forall i :: 0 <= i < |q.heap| ==> q.heap[i].finish >= q.vt && q.heap[i].ticket < q.ticket)
    && (forall i, j :: 0 <= i < j < |q.heap| ==> q.heap[i].ticket < q.heap[j].ticket)
    && (forall cls {:trigger ClassOk(q, cls)} :: ClassOk(q, cls))
  }

  lemma EmptyGood<T>()
    ensures Good(Empty<T>())
  {
  }

  lemma {:induction false} ChainedMonotone<T>(s: seq<Entry<T>>, i: nat, j: nat)
    requires Chained(s) && i <= j < |s|
    ensures s[i].finish <= s[j].finish
    decreases j - i
  {
    if i < j {
      ChainedMonotone(s, i, j - 1);
      assert s[j].Start() == s[j - 1].finish && s[j].Positive();
      ShareNonNegative(s[j]);
    }
  }

  lemma ShareNonNegative<T>(e: Entry<T>)
    requires e.Positive()
    ensures e.Share() >= 0.0
  {
  }

  lemma EnqueueOfClass<T>(q: Queue<T>, item: T, cls: string, weight: real, cost: real, c: string)
    ensures OfClass(Enqueue(q, item, cls, weight, cost).heap, c) ==
      OfClass(q.heap, c) + (if c == cls then [NewEntry(q, item, cls, weight, cost)] else [])
  {
    var heap' := Enqueue(q, item, cls, weight, cost).heap;
    assert heap'[..|heap'| - 1] == q.heap;
  }

  /** A new entry starts at the later of virtual time and the finish of its class. */
  lemma NewEntryStart<T>(q: Queue<T>, item: T, cls: string, weight: real, cost: real)
    requires cost >= 0.0
    ensures var e := NewEntry(q, item, cls, weight, cost);
      e.Positive() && e.Start() == RMax(q.vt, LastFinish(q, cls)) <= e.finish
  {
    ShareNonNegative(NewEntry(q, item, cls, weight, cost));
  }

  lemma ChainedSnoc<T>(s: seq<Entry<T>>, e: Entry<T>)
    requires Chained(s) && e.Positive() && (s != [] ==> e.Start() == s[|s| - 1].finish)
    ensures Chained(s + [e])
  {
  }

  lemma LastWaiting<T>(q: Queue<T>, c: string)
    requires Good(q) && OfClass(q.heap, c) != []
    ensures var s := OfClass(q.heap, c); s[|s| - 1].finish >= q.vt
  {
    OfClassMember(q.heap, c, |OfClass(q.heap, c)| - 1);
  }

  lemma EnqueueClassOk<T>(q: Queue<T>, item: T, cls: string, weight: real, cost: real, c: string)
    requires Good(q) && cost >= 0.0
    ensures ClassOk(Enqueue(q, item, cls, weight, cost), c)
  {
    assert ClassOk(q, c);
    hide OfClass, Entry.Share, Entry.Start;
    EnqueueOfClass(q, item, cls, weight, cost, c);
    if c == cls {
      var s := OfClass(q.heap, c);
      NewEntryStart(q, item, cls, weight, cost);
      if s != [] { LastWaiting(q, c); }
      ChainedSnoc(s, NewEntry(q, item, cls, weight, cost));
    }
  }

  lemma EnqueueGood<T>(q: Queue<T>, item: T, cls: string, weight: real, cost: real)
    requires Good(q) && cost >= 0.0
    ensures Good(Enqueue(q, item, cls, weight, cost))
  {
    hide ClassOk, OfClass;
    ShareNonNegative(NewEntry(q, item, cls, weight, cost));
    forall c ensures ClassOk(Enqueue(q, item, cls, weight, cost), c) {
      EnqueueClassOk(q, item, cls, weight, cost, c);
    }
  }

  lemma OfClassRemove<T>(heap: seq<Entry<T>>, i: nat, c: string)
    requires i < |heap|
    ensures var l, r := heap[..i], heap[i + 1..];
      && OfClass(heap, c) == OfClass(l, c) + ((if c == heap[i].cls then [heap[i]] else []) + OfClass(r, c))
      && OfClass(l + r, c) == OfClass(l, c) + OfClass(r, c)
  {
    var l, r := heap[..i], heap[i + 1..];
    assert heap == l + ([heap[i]] + r);
    OfClassConcat(l, [heap[i]] + r, c);
    OfClassConcat([heap[i]], r, c);
    OfClassConcat(l, r, c);
    assert [heap[i]][..0] == [];
    assert OfClass([heap[i]], c) == if c == heap[i].cls then [heap[i]] else [];
  }

  /** Nothing of the served class waits before the served entry. */
  lemma NoneBefore<T>(q: Queue<T>)
    requires Good(q) && q.heap != []
    ensures OfClass(q.heap[..LeastIndex(q.heap)], Front(q).cls) == []
  {
    var i := LeastIndex(q.heap);
    var e := q.heap[i];
    var l := OfClass(q.heap[..i], e.cls);
    if l != [] {
      OfClassMember(q.heap[..i], e.cls, 0);
      OfClassRemove(q.heap, i, e.cls);
      assert ClassOk(q, e.cls);
      ChainedMonotone(OfClass(q.heap, e.cls), 0, |l|);
      assert false;
    }
  }

  /** The entry served is the oldest waiting entry of its class, and no other class changes. */
  lemma ServedFirst<T>(q: Queue<T>, c: string)
    requires Good(q) && q.heap != []
    ensures var e := Front(q); var s := OfClass(q.heap, c);
      if c == e.cls then s != [] && s[0] == e && OfClass(Dequeue(q).heap, c) == s[1..]
      else OfClass(Dequeue(q).heap, c) == s
  {
    hide Good, OfClass;
    NoneBefore(q);
    OfClassRemove(q.heap, LeastIndex(q.heap), c);
  }

  lemma GoodParts<T>(q: Queue<T>, c: string)
    requires Good(q)
    ensures ClassOk(q, c)
    ensures q.heap != [] ==> Front(q).finish >= q.vt
  {
  }

  lemma DequeueClassOk<T>(q: Queue<T>, c: string)
    requires Good(q) && q.heap != []
    ensures ClassOk(Dequeue(q), c)
  {
    hide Good, OfClass, LeastIndex, Entry.Share;
    GoodParts(q, c);
    ServedFirst(q, c);
    var s := OfClass(q.heap, c);
    if c == Front(q).cls {
      ChainedTail(s);
    }
  }

  lemma ChainedTail<T>(s: seq<Entry<T>>)
    requires Chained(s) && s != []
    ensures Chained(s[1..]) && (|s| > 1 ==> s[1].Start() == s[0].finish)
  {
    var r := s[1..];
    assert forall i :: 0 <= i < |r| ==> r[i] == s[i + 1];
    forall i, j | 0 <= i && j == i + 1 && j < |r| ensures r[j].Start() == r[i].finish {
      assert s[j + 1].Start() == s[i + 1].finish;
    }
  }

  lemma DequeueGood<T>(q: Queue<T>)
    requires Good(q) && q.heap != []
    ensures Good(Dequeue(q)) && Dequeue(q).vt == Front(q).finish >= q.vt
  {
    hide ClassOk;
    forall c ensures ClassOk(Dequeue(q), c) {
      DequeueClassOk(q, c);
    }
  }

  // ------------------------------------------------------------------ runs

  datatype Op<T> = Enq(item: T, cls: string, weight: real, cost: real) | Deq

  /** Popping an empty queue raises and changes nothing. */
  function Step<T>(q: Queue<T>, op: Op<T>): Queue<T> {
    match op
    case Enq(item, cls, weight, cost) => Enqueue(q, item, cls, weight, cost)
    case Deq => if q.heap == [] then q else Dequeue(q)
  }

  function Run<T>(q: Queue<T>, ops: seq<Op<T>>): Queue<T> {
    if ops == [] then q else Step(Run(q, ops[..|ops| - 1]), ops[|ops| - 1])
  }

  ghost predicate NonNegative<T>(ops: seq<Op<T>>) {
    forall i :: 0 <= i < |ops| && ops[i].Enq? ==> ops[i].cost >= 0.0
  }

  lemma StepGood<T>(q: Queue<T>, op: Op<T>)
    requires Good(q) && (op.Enq? ==> op.cost >= 0.0)
    ensures Good(Step(q, op)) && Step(q, op).vt >= q.vt
  {
    match op
    case Enq(item, cls, weight, cost) => EnqueueGood(q, item, cls, weight, cost);
    case Deq => if q.heap != [] { DequeueGood(q); }
  }

  /** Every run with non-negative costs keeps the invariant, and virtual time never decreases. */
  lemma {:induction false} RunGood<T>(q: Queue<T>, ops: seq<Op<T>>)
    requires Good(q) && NonNegative(ops)
    ensures Good(Run(q, ops)) && Run(q, ops).vt >= q.vt
  {
    if ops != [] {
      RunGood(q, ops[..|ops| - 1]);
      StepGood(Run(q, ops[..|ops| - 1]), ops[|ops| - 1]);
    }
  }

  /** `op` in state `q` serves an entry of class `c`. */
  predicate Serves<T>(q: Queue<T>, op: Op<T>, c: string) {
    op.Deq? && q.heap != [] && Front(q).cls == c
  }

  /** Work done for class `c`, each item's cost divided by its weight. */
  function Work<T>(q: Queue<T>, ops: seq<Op<T>>, c: string): real {
    if ops == [] then 0.0 else
      var before := ops[..|ops| - 1];
      var last := Run(q, before);
      Work(q, before, c) + if Serves(last, ops[|ops| - 1], c) then Front(last).Share() else 0.0
  }

  /** Class `c` has something waiting at every moment of the run. */
  ghost predicate Backlogged<T>(q: Queue<T>, ops: seq<Op<T>>, c: string) {
    && OfClass(Run(q, ops).heap, c) != []
    && (ops == [] || Backlogged(q, ops[..|ops| - 1], c))
  }

  /** Units of virtual time that an arriving item needs. */
  function OpShare<T>(op: Op<T>): real
    requires op.Enq?
  {
    op.cost / EffectiveWeight(op.weight)
  }

  /** Every item of class `c`, waiting or arriving, needs at most `r` units of virtual time. */
  ghost predicate SharesAtMost<T>(q: Queue<T>, ops: seq<Op<T>>, c: string, r: real) {
    && (forall e :: e in q.heap && e.cls == c ==> e.Share() <= r)
    && (forall i :: 0 <= i < |ops| && ops[i].Enq? && ops[i].cls == c ==>
          OpShare(ops[i]) <= r)
  }

  ghost function HeadStart<T>(q: Queue<T>, c: string): real
    requires OfClass(q.heap, c) != []
  {
    OfClass(q.heap, c)[0].Start()
  }

  /** While a class is backlogged its head's start tag advances by exactly the work done for it. */
  lemma HeadAdvances<T>(q: Queue<T>, op: Op<T>, c: string)
    requires Good(q) && (op.Enq? ==> op.cost >= 0.0)
    requires OfClass(q.heap, c) != [] && OfClass(Step(q, op).heap, c) != []
    ensures HeadStart(Step(q, op), c) ==
      HeadStart(q, c) + if Serves(q, op, c) then Front(q).Share() else 0.0
  {
    assert ClassOk(q, c);
    hide Good, OfClass;
    var s := OfClass(q.heap, c);
    match op
    case Enq(item, cls, weight, cost) => EnqueueOfClass(q, item, cls, weight, cost, c);
    case Deq =>
      if q.heap != [] {
        ServedFirst(q, c);
        if Front(q).cls == c {
          ChainedTail(s);
        }
      }
  }

  lemma {:induction false} WorkIsHeadAdvance<T>(q: Queue<T>, ops: seq<Op<T>>, c: string)
    requires Good(q) && NonNegative(ops) && Backlogged(q, ops, c)
    ensures OfClass(q.heap, c) != []
    ensures Work(q, ops, c) == HeadStart(Run(q, ops), c) - HeadStart(q, c)
  {
    if ops != [] {
      var before := ops[..|ops| - 1];
      WorkIsHeadAdvance(q, before, c);
      RunGood(q, before);
      HeadAdvances(Run(q, before), ops[|ops| - 1], c);
    }
  }

  lemma {:induction false} SharesKept<T>(q: Queue<T>, ops: seq<Op<T>>, c: string, r: real)
    requires SharesAtMost(q, ops, c, r)
    ensures forall e :: e in Run(q, ops).heap && e.cls == c ==> e.Share() <= r
  {
    if ops != [] {
      SharesKept(q, ops[..|ops| - 1], c, r);
      var last := Run(q, ops[..|ops| - 1]);
      var op := ops[|ops| - 1];
      forall e | e in Run(q, ops).heap && e.cls == c ensures e.Share() <= r {
        if e !in last.heap {
          assert op.Enq? && e == NewEntry(last, op.item, op.cls, op.weight, op.cost);
        }
      }
    }
  }

  /** The start tag of a waiting head lies within one share below virtual time. */
  lemma HeadNearVirtualTime<T>(q: Queue<T>, c: string, r: real)
    requires Good(q) && OfClass(q.heap, c) != []
    requires forall e :: e in q.heap && e.cls == c ==> e.Share() <= r
    ensures q.vt - r <= HeadStart(q, c) <= q.vt
  {
    OfClassMember(q.heap, c, 0);
    assert ClassOk(q, c);
  }

  /** Weighted fairness: from any reachable state, over any stretch of arrivals and services during
      which two classes stay backlogged, the work done for them differs by at most one share each. */
  lemma Fairness<T>(history: seq<Op<T>>, ops: seq<Op<T>>, a: string, b: string, ra: real, rb: real)
    requires NonNegative(history) && NonNegative(ops)
    requires var q := Run(Empty(), history);
      && Backlogged(q, ops, a) && Backlogged(q, ops, b)
      && SharesAtMost(q, ops, a, ra) && SharesAtMost(q, ops, b, rb)
    ensures var q := Run(Empty(), history);
      -(ra + rb) <= Work(q, ops, a) - Work(q, ops, b) <= ra + rb
  {
    EmptyGood<T>();
    RunGood(Empty(), history);
    var q := Run(Empty(), history);
    RunGood(q, ops);
    var q' := Run(q, ops);
    WorkIsHeadAdvance(q, ops, a);
    WorkIsHeadAdvance(q, ops, b);
    SharesKept(q, ops, a, ra);
    SharesKept(q, ops, b, rb);
    HeadNearVirtualTime(q, a, ra);
    HeadNearVirtualTime(q, b, rb);
    HeadNearVirtualTime(q', a, ra);
    HeadNearVirtualTime(q', b, rb);
  }

  /** `n` shares of `r`. */
  function Times(n: nat, r: real): real {
    n as real * r
  }

  lemma TimesSucc(n: nat, r: real)
    ensures Times(0, r) == 0.0 && Times(n + 1, r) == Times(n, r) + r
  {
  }

  /** How many entries of class `c` the run serves. */
  function Count<T>(q: Queue<T>, ops: seq<Op<T>>, c: string): nat {
    if ops == [] then 0 else
      var before := ops[..|ops| - 1];
      Count(q, before, c) + if Serves(Run(q, before), ops[|ops| - 1], c) then 1 else 0
  }

  /** Every item of class `c`, waiting or arriving, needs at least `r` units of virtual time. */
  ghost predicate SharesAtLeast<T>(q: Queue<T>, ops: seq<Op<T>>, c: string, r: real) {
    && (forall e :: e in q.heap && e.cls == c ==> e.Share() >= r)
    && (forall i :: 0 <= i < |ops| && ops[i].Enq? && ops[i].cls == c ==>
          OpShare(ops[i]) >= r)
  }

  lemma {:induction false} SharesKeptAbove<T>(q: Queue<T>, ops: seq<Op<T>>, c: string, r: real)
    requires SharesAtLeast(q, ops, c, r)
    ensures forall e :: e in Run(q, ops).heap && e.cls == c ==> e.Share() >= r
  {
    if ops != [] {
      SharesKeptAbove(q, ops[..|ops| - 1], c, r);
      var last := Run(q, ops[..|ops| - 1]);
      var op := ops[|ops| - 1];
      forall e | e in Run(q, ops).heap && e.cls == c ensures e.Share() >= r {
        if e !in last.heap {
          assert op.Enq? && e == NewEntry(last, op.item, op.cls, op.weight, op.cost);
        }
      }
    }
  }

  lemma {:induction false} WorkCounts<T>(q: Queue<T>, ops: seq<Op<T>>, c: string, r: real)
    requires SharesAtMost(q, ops, c, r) && SharesAtLeast(q, ops, c, r)
    ensures Work(q, ops, c) == Times(Count(q, ops, c), r)
  {
    hide Times, Entry.Share, OpShare, Run, LeastIndex;
    TimesSucc(0, r);
    if ops != [] {
      var before := ops[..|ops| - 1];
      WorkCounts(q, before, c, r);
      SharesKept(q, before, c, r);
      SharesKeptAbove(q, before, c, r);
      var last := Run(q, before);
      if Serves(last, ops[|ops| - 1], c) {
        assert Front(last) in last.heap && Front(last).Share() == r;
        TimesSucc(Count(q, before, c), r);
      }
    }
  }

  /** With one weight and one cost per class: the numbers of services, divided by the weights and
      multiplied by the costs, differ by at most one share each. */
  lemma FairnessInCounts<T>(history: seq<Op<T>>, ops: seq<Op<T>>, a: string, b: string, ra: real, rb: real)
    requires NonNegative(history) && NonNegative(ops)
    requires var q := Run(Empty(), history);
      && Backlogged(q, ops, a) && Backlogged(q, ops, b)
      && SharesAtMost(q, ops, a, ra) && SharesAtLeast(q, ops, a, ra)
      && SharesAtMost(q, ops, b, rb) && SharesAtLeast(q, ops, b, rb)
    ensures var q := Run(Empty(), history);
      -(ra + rb) <= Times(Count(q, ops, a), ra) - Times(Count(q, ops, b), rb) <= ra + rb
  {
    hide *;
    var q := Run(Empty(), history);
    Fairness(history, ops, a, b, ra, rb);
    WorkCounts(q, ops, a, ra);
    WorkCounts(q, ops, b, rb);
  }

  /** Every arriving item of class `c` has this weight and cost. */
  ghost predicate CallsCarry<T>(ops: seq<Op<T>>, c: string, weight: real, cost: real) {
    forall i :: 0 <= i < |ops| && ops[i].Enq? && ops[i].cls == c ==> ops[i].weight == weight && ops[i].cost == cost
  }

  /** What arrived with one weight and cost waits with the share these make. */
  lemma {:induction false} WaitingShares<T>(ops: seq<Op<T>>, c: string, weight: real, cost: real)
    requires CallsCarry(ops, c, weight, cost) && weight > 0.0
    ensures forall e :: e in Run(Empty(), ops).heap && e.cls == c ==> e.Share() == cost / weight
  {
    if ops != [] {
      WaitingShares(ops[..|ops| - 1], c, weight, cost);
      var last, op := Run(Empty(), ops[..|ops| - 1]), ops[|ops| - 1];
      forall e | e in Run(Empty(), ops).heap && e.cls == c ensures e.Share() == cost / weight {
        if e !in last.heap {
          assert op.Enq? && e == NewEntry(last, op.item, op.cls, op.weight, op.cost);
        }
      }
    }
  }

  lemma CarriedShares<T>(history: seq<Op<T>>, ops: seq<Op<T>>, c: string, weight: real, cost: real)
    requires CallsCarry(history, c, weight, cost) && CallsCarry(ops, c, weight, cost) && weight > 0.0
    ensures SharesAtMost(Run(Empty(), history), ops, c, cost / weight)
    ensures SharesAtLeast(Run(Empty(), history), ops, c, cost / weight)
  {
    WaitingShares(history, c, weight, cost);
  }

  /** Weighted fairness in terms of the calls: when every item of class `a` arrives with weight `wa` and cost
      `ca`, and likewise for `b`, then over any stretch during which both stay backlogged the numbers of
      services, times cost over weight, differ by at most one such share of each class. */
  lemma WeightedFairness<T>(history: seq<Op<T>>, ops: seq<Op<T>>, a: string, b: string,
                            wa: real, ca: real, wb: real, cb: real)
    requires NonNegative(history) && NonNegative(ops) && wa > 0.0 && wb > 0.0
    requires CallsCarry(history, a, wa, ca) && CallsCarry(ops, a, wa, ca)
    requires CallsCarry(history, b, wb, cb) && CallsCarry(ops, b, wb, cb)
    requires Backlogged(Run(Empty(), history), ops, a) && Backlogged(Run(Empty(), history), ops, b)
    ensures var q := Run(Empty(), history); var na, nb := Count(q, ops, a) as real, Count(q, ops, b) as real;
      -(ca / wa + cb / wb) <= na * (ca / wa) - nb * (cb / wb) <= ca / wa + cb / wb
  {
    hide SharesAtMost, SharesAtLeast, CallsCarry, Backlogged, Run, Count, NonNegative;
    CarriedShares(history, ops, a, wa, ca);
    CarriedShares(history, ops, b, wb, cb);
    FairnessInCounts(history, ops, a, b, ca / wa, cb / wb);
  }

  /** A weight three times as large is worth three services to one: with unit costs, of two backlogged classes
      the one of weight 3 is served at least three times as often as the one of weight 1, but for four. */
  lemma ThreeToOne<T>(history: seq<Op<T>>, ops: seq<Op<T>>, gold: string, bronze: string)
    requires NonNegative(history) && NonNegative(ops)
    requires CallsCarry(history, gold, 3.0, 1.0) && CallsCarry(ops, gold, 3.0, 1.0)
    requires CallsCarry(history, bronze, 1.0, 1.0) && CallsCarry(ops, bronze, 1.0, 1.0)
    requires Backlogged(Run(Empty(), history), ops, gold) && Backlogged(Run(Empty(), history), ops, bronze)
    ensures var q := Run(Empty(), history);
      Count(q, ops, gold) - 4 <= 3 * Count(q, ops, bronze) <= Count(q, ops, gold) + 4
  {
    hide CallsCarry, Backlogged, Run, Count, NonNegative;
    WeightedFairness(history, ops, gold, bronze, 3.0, 1.0, 1.0, 1.0);
    var q := Run(Empty(), history);
    var ng, nb := Count(q, ops, gold) as real, Count(q, ops, bronze) as real;
    assert 1.0 / 3.0 * 3.0 == 1.0;
    assert (ng * (1.0 / 3.0)) * 3.0 == ng;
    assert nb * (1.0 / 1.0) == nb;
  }

  // ------------------------------------------------------------------ order of service

  function Items<T>(s: seq<Entry<T>>): (r: seq<T>)
    ensures |r| == |s| && forall i :: 0 <= i < |s| ==> r[i] == s[i].item
  {
    seq(|s|, i requires 0 <= i < |s| => s[i].item)
  }

  /** The items of class `c` in the order in which they are served. */
  function Served<T>(q: Queue<T>, ops: seq<Op<T>>, c: string): seq<T> {
    if ops == [] then [] else
      var before := ops[..|ops| - 1];
      var last := Run(q, before);
      Served(q, before, c) + if Serves(last, ops[|ops| - 1], c) then [Front(last).item] else []
  }

  /** The items of class `c` in the order in which they arrive. */
  function Arrived<T>(ops: seq<Op<T>>, c: string): seq<T> {
    if ops == [] then [] else
      var op := ops[|ops| - 1];
      Arrived(ops[..|ops| - 1], c) + if op.Enq? && op.cls == c then [op.item] else []
  }

  /** First in, first out within a class: what was served, followed by what still waits, is what
      waited at first, followed by what arrived. */
  lemma {:induction false} ClassFifo<T>(q: Queue<T>, ops: seq<Op<T>>, c: string)
    requires Good(q) && NonNegative(ops)
    ensures Served(q, ops, c) + Items(OfClass(Run(q, ops).heap, c)) == Items(OfClass(q.heap, c)) + Arrived(ops, c)
  {
    if ops == [] {
      assert [] + Items(OfClass(q.heap, c)) == Items(OfClass(q.heap, c)) + [];
    } else {
      var before := ops[..|ops| - 1];
      var last := Run(q, before);
      ClassFifo(q, before, c);
      RunGood(q, before);
      ClassFifoStep(last, ops[|ops| - 1], c, Served(q, before, c), Items(OfClass(q.heap, c)) + Arrived(before, c));
      var op := ops[|ops| - 1];
      var more := if op.Enq? && op.cls == c then [op.item] else [];
      assert (Items(OfClass(q.heap, c)) + Arrived(before, c)) + more ==
        Items(OfClass(q.heap, c)) + (Arrived(before, c) + more);
    }
  }

  lemma ClassFifoStep<T>(q: Queue<T>, op: Op<T>, c: string, done: seq<T>, all: seq<T>)
    requires Good(q) && (op.Enq? ==> op.cost >= 0.0)
    requires done + Items(OfClass(q.heap, c)) == all
    ensures (done + if Serves(q, op, c) then [Front(q).item] else []) + Items(OfClass(Step(q, op).heap, c)) ==
      all + if op.Enq? && op.cls == c then [op.item] else []
  {
    hide Good, OfClass, Items;
    var s := OfClass(q.heap, c);
    match op
    case Enq(item, cls, weight, cost) =>
      EnqueueOfClass(q, item, cls, weight, cost, c);
      if cls == c {
        ItemsSnoc(s, NewEntry(q, item, cls, weight, cost), done);
      } else {
        assert done + [] == done && s + [] == s && all + [] == all;
      }
    case Deq =>
      if q.heap != [] {
        ServedFirst(q, c);
      }
      if Serves(q, op, c) {
        ItemsCons(s, done);
        assert all + [] == all;
      } else {
        assert done + [] == done && all + [] == all;
      }
  }

  lemma ItemsSnoc<T>(s: seq<Entry<T>>, e: Entry<T>, done: seq<T>)
    ensures (done + []) + Items(s + [e]) == (done + Items(s)) + [e.item]
  {
    assert Items(s + [e]) == Items(s) + [e.item];
  }

  lemma ItemsCons<T>(s: seq<Entry<T>>, done: seq<T>)
    requires s != []
    ensures (done + [s[0].item]) + Items(s[1..]) == done + Items(s)
  {
    assert Items(s) == [s[0].item] + Items(s[1..]);
  }

  lemma {:induction false} RunSplit<T>(q: Queue<T>, ops: seq<Op<T>>, k: nat)
    requires k <= |ops|
    ensures Run(q, ops) == Run(Run(q, ops[..k]), ops[k..])
  {
    if k == |ops| {
      assert ops[..k] == ops;
    } else {
      var before := ops[..|ops| - 1];
      RunSplit(q, before, k);
      assert before[..k] == ops[..k] && before[k..] == ops[k..][..|ops[k..]| - 1];
    }
  }

  /** Served tags never decrease along a run. */
  lemma TagsMonotone<T>(q: Queue<T>, ops: seq<Op<T>>, i: nat, j: nat)
    requires Good(q) && NonNegative(ops) && i < j < |ops|
    requires ops[i].Deq? && Run(q, ops[..i]).heap != []
    requires ops[j].Deq? && Run(q, ops[..j]).heap != []
    ensures Front(Run(q, ops[..i])).finish <= Front(Run(q, ops[..j])).finish
  {
    hide Good, Step, LeastIndex;
    var qi, qj := Run(q, ops[..i]), Run(q, ops[..j]);
    RunGood(q, ops[..i]);
    RunGood(q, ops[..j]);
    assert ops[..i + 1][..i] == ops[..i];
    StepServes(qi, ops[i]);
    RunSplit(q, ops[..j], i + 1);
    assert ops[..j][..i + 1] == ops[..i + 1];
    RunGood(Step(qi, ops[i]), ops[..j][i + 1..]);
    FrontNotPast(qj);
  }

  lemma StepServes<T>(q: Queue<T>, op: Op<T>)
    requires Good(q) && op.Deq? && q.heap != []
    ensures Good(Step(q, op)) && Step(q, op).vt == Front(q).finish
  {
    DequeueGood(q);
  }

  lemma FrontNotPast<T>(q: Queue<T>)
    requires Good(q) && q.heap != []
    ensures Front(q).finish >= q.vt
  {
  }

  // ------------------------------------------------------------------ no starvation

  /** The next entry of class `c` to be served carries a tag of at least `m`. */
  ghost predicate NextAtLeast<T>(q: Queue<T>, c: string, r: real, m: real) {
    var s := OfClass(q.heap, c);
    if s != [] then s[0].finish >= m else RMax(q.vt, LastFinish(q, c)) + r >= m
  }

  /** Each service of class `c` pushes its next tag up by at least `r`. */
  lemma TagsSpread<T>(q: Queue<T>, op: Op<T>, c: string, r: real, m: real)
    requires Good(q) && NextAtLeast(q, c, r, m) && r >= 0.0
    requires forall e :: e in q.heap && e.cls == c ==> e.Share() >= r
    requires op.Enq? ==> op.cost >= 0.0 && (op.cls == c ==> OpShare(op) >= r)
    ensures if Serves(q, op, c) then Front(q).finish >= m && NextAtLeast(Step(q, op), c, r, m + r)
            else NextAtLeast(Step(q, op), c, r, m)
  {
    assert ClassOk(q, c);
    hide Good, OfClass, LeastIndex;
    var s := OfClass(q.heap, c);
    match op
    case Enq(item, cls, weight, cost) =>
      EnqueueOfClass(q, item, cls, weight, cost, c);
    case Deq =>
      if q.heap != [] {
        DequeueGood(q);
        ServedFirst(q, c);
        if Front(q).cls == c && |s| > 1 {
          OfClassMember(q.heap, c, 1);
          ChainedTail(s);
        }
      }
  }

  lemma NextAtLeastNow<T>(q: Queue<T>, c: string, r: real)
    requires Good(q) && r >= 0.0
    ensures NextAtLeast(q, c, r, q.vt)
  {
    if OfClass(q.heap, c) != [] { OfClassMember(q.heap, c, 0); }
  }

  lemma {:induction false} TagsSpreadRun<T>(q: Queue<T>, ops: seq<Op<T>>, c: string, r: real)
    requires Good(q) && NonNegative(ops) && SharesAtLeast(q, ops, c, r) && r >= 0.0
    ensures NextAtLeast(Run(q, ops), c, r, q.vt + Times(Count(q, ops, c), r))
  {
    hide Times, Entry.Share, Good, NextAtLeast, OpShare, Step, OfClass;
    TimesSucc(Count(q, ops[..if ops == [] then 0 else |ops| - 1], c), r);
    if ops == [] {
      NextAtLeastNow(q, c, r);
    } else {
      var before := ops[..|ops| - 1];
      TagsSpreadRun(q, before, c, r);
      RunGood(q, before);
      SharesKeptAbove(q, before, c, r);
      TagsSpread(Run(q, before), ops[|ops| - 1], c, r, q.vt + Times(Count(q, before, c), r));
    }
  }

  /** `x` waits at the moment of every operation of the run (the last one may serve it). */
  ghost predicate Waits<T>(q: Queue<T>, ops: seq<Op<T>>, x: Entry<T>) {
    ops == [] || (x in Run(q, ops[..|ops| - 1]).heap && Waits(q, ops[..|ops| - 1], x))
  }

  /** Bounded bypass: while an entry with tag `x.finish` waits, a class whose items need at least `r`
      is served at most 1 + (x.finish - vt) / r times, however many of its items arrive meanwhile. */
  lemma {:induction false} BoundedBypass<T>(q: Queue<T>, ops: seq<Op<T>>, x: Entry<T>, c: string, r: real)
    requires Good(q) && NonNegative(ops) && SharesAtLeast(q, ops, c, r) && r > 0.0
    requires x in q.heap && Waits(q, ops, x)
    ensures Count(q, ops, c) <= ((x.finish - q.vt) / r).Floor + 1
  {
    hide Times, Entry.Share, Good, NextAtLeast, OpShare, Step, OfClass;
    if ops == [] {
      TagNotPast(q, x, r);
    } else {
      var before := ops[..|ops| - 1];
      BoundedBypass(q, before, x, c, r);
      var last := Run(q, before);
      if Serves(last, ops[|ops| - 1], c) {
        TagsSpreadRun(q, before, c, r);
        RunGood(q, before);
        SharesKeptAbove(q, before, c, r);
        TagsSpread(last, ops[|ops| - 1], c, r, q.vt + Times(Count(q, before, c), r));
        assert !Before(x, Front(last));
        DivideBound(Count(q, before, c), x.finish - q.vt, r);
      }
    }
  }

  /** The same in terms of the calls. */
  lemma WeightedBypass<T>(history: seq<Op<T>>, ops: seq<Op<T>>, x: Entry<T>, c: string, weight: real, cost: real)
    requires NonNegative(history) && NonNegative(ops) && weight > 0.0 && cost > 0.0
    requires CallsCarry(history, c, weight, cost) && CallsCarry(ops, c, weight, cost)
    requires x in Run(Empty(), history).heap && Waits(Run(Empty(), history), ops, x)
    ensures var q := Run(Empty(), history);
      cost / weight > 0.0 && Count(q, ops, c) <= ((x.finish - q.vt) / (cost / weight)).Floor + 1
  {
    hide CallsCarry, Run, Count, SharesAtLeast, SharesAtMost;
    DivAbove(cost, weight, 0.0);
    EmptyGood<T>();
    RunGood(Empty(), history);
    CarriedShares(history, ops, c, weight, cost);
    BoundedBypass(Run(Empty(), history), ops, x, c, cost / weight);
  }

  lemma TagNotPast<T>(q: Queue<T>, x: Entry<T>, r: real)
    requires Good(q) && x in q.heap && r > 0.0
    ensures ((x.finish - q.vt) / r).Floor >= 0
  {
    assert x.finish >= q.vt;
    assert (x.finish - q.vt) / r >= 0.0;
  }

  lemma DivideBound(n: nat, d: real, r: real)
    requires r > 0.0 && Times(n, r) <= d
    ensures n <= (d / r).Floor
  {
    var x := d / r;
    assert x * r == d;
    if n as real > x {
      MulMonoStrict(x, n as real, r);
      assert false;
    }
  }
}
