/** Per-tenant token buckets and the in-flight cap (gateway/tenancy.py).  Time is an argument. */
module Tenancy {
  import opened Basics

  // ------------------------------------------------------------------ one bucket, as a value

  datatype Bucket = Bucket(capacity: real, refill: real, tokens: real, ts: real)

  function RMin(x: real, y: real): real {
    if y < x then y else x
  }

  function RMax(x: real, y: real): real {
    if x < y then y else x
  }

  /** The positive part. */
  function Pos(x: real): (r: real)
    ensures r >= 0.0 && r >= x
  {
    RMax(x, 0.0)
  }

  function NewBucket(capacity: real, refill: real): Bucket {
    Bucket(capacity, refill, capacity, 0.0)
  }

  /** What a bucket with this rate earns between two moments. */
  function Earned(from: real, to: real, rate: real): real {
    (to - from) * rate
  }

  lemma EarnedIs(from: real, to: real, rate: real)
    ensures Earned(from, to, rate) == (to - from) * rate
  {
  }

  lemma EarnedSplit(from: real, last: real, now: real, rate: real)
    requires from <= last <= now && rate >= 0.0
    ensures Earned(from, now, rate) == Earned(from, last, rate) + Earned(last, now, rate)
    ensures Earned(from, last, rate) >= 0.0 && Earned(last, now, rate) >= 0.0 && Earned(from, from, rate) == 0.0
  {
    MulMono(0.0, last - from, rate);
    MulMono(0.0, now - last, rate);
    assert (now - from) * rate == ((last - from) + (now - last)) * rate;
  }

  /** Lazy refill up to `now`. */
  function Replenish(b: Bucket, now: real): Bucket {
    if now > b.ts then b.(tokens := RMin(b.capacity, b.tokens + Earned(b.ts, now, b.refill)), ts := now) else b
  }

  /** Refund or extra debit, capped at capacity. */
  function Adjust(b: Bucket, delta: real): Bucket {
    b.(tokens := RMin(b.capacity, b.tokens + delta))
  }

  /** Never over-full, never draining by itself. */
  ghost predicate BucketOk(b: Bucket) {
    b.tokens <= b.capacity && b.refill >= 0.0
  }

  lemma ReplenishOk(b: Bucket, now: real)
    requires BucketOk(b)
    ensures BucketOk(Replenish(b, now)) && Replenish(b, now).tokens >= b.tokens
    ensures Replenish(Replenish(b, now), now) == Replenish(b, now)
  {
    hide Earned;
    if now > b.ts { EarnedSplit(b.ts, b.ts, now, b.refill); }
  }

  /** Refilling lazily in two steps is refilling once. */
  lemma ReplenishTwice(b: Bucket, now: real, later: real)
    requires b.refill >= 0.0 && now <= later
    ensures Replenish(Replenish(b, now), later) == Replenish(b, later)
  {
    hide Earned;
    if now > b.ts && later > now { EarnedSplit(b.ts, now, later, b.refill); }
  }

  /** Waiting from `now` to `later` adds at most the refill of that time. */
  lemma ReplenishRate(b: Bucket, now: real, later: real)
    requires b.refill >= 0.0 && now <= later
    ensures Replenish(b, later).tokens <= Replenish(b, now).tokens + Earned(now, later, b.refill)
  {
    hide Earned;
    if b.ts < now {
      EarnedSplit(b.ts, now, later, b.refill);
    } else if b.ts < later {
      EarnedSplit(now, b.ts, later, b.refill);
    } else {
      EarnedSplit(now, now, later, b.refill);
    }
  }

  // ------------------------------------------------------------------ the limiter, as a value

  datatype Tenant = Tenant(id: string, rps: real, tps: real, maxInflight: int)

  datatype Limiter = Limiter(rps: map<string, Bucket>, tps: map<string, Bucket>, inflight: map<string, int>)

  const EMPTY := Limiter(map[], map[], map[])

  datatype Reason = Allowed | Rps | Tps | Inflight

  datatype Delay = Never | Seconds(s: real)

  datatype Admission = Admission(reason: Reason, retryAfter: Delay, remainingRps: real, remainingTps: real)

  function Inflights(l: Limiter, id: string): int {
    if id in l.inflight then l.inflight[id] else 0
  }

  /** Create the tenant's buckets on first use. */
  function WithBuckets(l: Limiter, t: Tenant): Limiter {
    if t.id in l.rps && t.id in l.tps then l
    else l.(rps := l.rps[t.id := NewBucket(if 1.0 < t.rps then t.rps else 1.0, t.rps)],
            tps := l.tps[t.id := NewBucket(t.tps, t.tps)])
  }

  /** How long an uncapped bucket would take to earn what is missing to `n` tokens. */
  function Deficit(b: Bucket, n: real): Delay {
    if b.tokens >= n then Seconds(0.0)
    else if b.refill <= 0.0 then Never
    else Seconds((n - b.tokens) / b.refill)
  }

  /** The delay is the time after which `n` tokens are there, and no earlier time is, if and only if the
      bucket can hold `n` tokens at all. */
  lemma DeficitIff(b: Bucket, n: real, u: real)
    requires BucketOk(b) && Deficit(b, n).Seconds? && 0.0 <= u
    ensures Replenish(b, b.ts + Deficit(b, n).s).tokens >= n <==> n <= b.capacity
    ensures u < Deficit(b, n).s ==> Replenish(b, b.ts + u).tokens < n
  {
    if b.tokens < n {
      var s := Deficit(b, n).s;
      DivMul(n - b.tokens, b.refill);
      assert Earned(b.ts, b.ts + s, b.refill) == s * b.refill == n - b.tokens;
      assert s > 0.0 by { DivAbove(n - b.tokens, b.refill, 0.0); }
      if u < s { MulMonoStrict(u, s, b.refill); }
    }
  }

  /** What admission does with one tenant's two buckets. */
  datatype Verdict = Verdict(reason: Reason, retryAfter: Delay, rps: Bucket, tps: Bucket)

  function Judge(rps: Bucket, tps: Bucket, inflight: int, maxInflight: int, cost: real, now: real): Verdict {
    if inflight >= maxInflight then Verdict(Inflight, Seconds(1.0), rps, tps)
    else
      var tps1 := Replenish(tps, now);
      if tps1.tokens < cost then Verdict(Tps, Deficit(tps1, cost), rps, tps1)
      else
        var tps2 := tps1.(tokens := tps1.tokens - cost);
        var rps1 := Replenish(rps, now);
        if rps1.tokens < 1.0 then Verdict(Rps, Deficit(rps1, 1.0), rps1, Adjust(tps2, cost))
        else Verdict(Allowed, Seconds(0.0), rps1.(tokens := rps1.tokens - 1.0), tps2)
  }

  function Admit(l: Limiter, t: Tenant, cost: real, now: real): (Limiter, Admission) {
    var l1 := WithBuckets(l, t);
    var v := Judge(l1.rps[t.id], l1.tps[t.id], Inflights(l, t.id), t.maxInflight, cost, now);
    (Limiter(l1.rps[t.id := v.rps], l1.tps[t.id := v.tps],
             if v.reason.Allowed? then l1.inflight[t.id := Inflights(l, t.id) + 1] else l1.inflight),
     Admission(v.reason, v.retryAfter, v.rps.tokens, v.tps.tokens))
  }

  function Release(l: Limiter, t: Tenant, reserved: real, actual: real): Limiter {
    var n := Inflights(l, t.id) - 1;
    var l1 := WithBuckets(l, t);
    Limiter(l1.rps, l1.tps[t.id := Adjust(l1.tps[t.id], reserved - actual)], l1.inflight[t.id := Max(0, n)])
  }

  // ------------------------------------------------------------------ the mutable objects

  class TokenBucket {
    const capacity: real
    const refill: real
    var tokens: real
    var ts: real

    ghost function View(): Bucket
      reads this
    {
      Bucket(capacity, refill, tokens, ts)
    }

    constructor (capacity: real, refillPerSec: real)
      ensures View() == NewBucket(capacity, refillPerSec)
    {
      this.capacity, this.refill, tokens, ts := capacity, refillPerSec, capacity, 0.0;
    }

    method Refill(now: real)
      modifies this
      ensures View() == Replenish(old(View()), now)
    {
      if now > ts {
        var full := tokens + Earned(ts, now, refill);
        tokens := if full < capacity then full else capacity;
        ts := now;
      }
    }

    method TryConsume(n: real, now: real) returns (ok: bool)
      modifies this
      ensures ok == (Replenish(old(View()), now).tokens >= n)
      ensures var b := Replenish(old(View()), now); View() == if ok then b.(tokens := b.tokens - n) else b
    {
      Refill(now);
      ok := tokens >= n;
      if ok {
        tokens := tokens - n;
      }
    }

    method DeficitSeconds(n: real, now: real) returns (d: Delay)
      modifies this
      ensures View() == Replenish(old(View()), now) && d == Deficit(View(), n)
    {
      Refill(now);
      if tokens >= n {
        return Seconds(0.0);
      }
      d := if refill <= 0.0 then Never else Seconds((n - tokens) / refill);
    }

    method AdjustBy(delta: real)
      modifies this
      ensures View() == Adjust(old(View()), delta)
    {
      tokens := if tokens + delta < capacity then tokens + delta else capacity;
    }
  }

  /** Two bucket objects and the values they show. */
  ghost predicate Pair(r: TokenBucket, p: TokenBucket, rv: Bucket, pv: Bucket)
    reads r, p
  {
    r != p && r.View() == rv && p.View() == pv
  }

  /** Two tenants share no bucket object. */
  ghost predicate Apart(rps: map<string, TokenBucket>, tps: map<string, TokenBucket>, i: string, j: string)
    requires i in rps && j in rps && i in tps && j in tps
  {
    rps[i] != rps[j] && tps[i] != tps[j] && rps[i] != tps[j] && tps[i] != rps[j]
  }

  ghost predicate AllApart(rps: map<string, TokenBucket>, tps: map<string, TokenBucket>) {
    && rps.Keys == tps.Keys
    && (forall i, j {:trigger Apart(rps, tps, i, j)} :: i in rps && j in rps && i != j ==> Apart(rps, tps, i, j))
  }

  lemma ApartAdd(rps: map<string, TokenBucket>, tps: map<string, TokenBucket>, buckets: set<TokenBucket>, id: string,
                 r: TokenBucket, p: TokenBucket)
    requires AllApart(rps, tps) && (forall i :: i in rps ==> rps[i] in buckets && tps[i] in buckets)
    requires r !in buckets && p !in buckets && id !in rps
    ensures AllApart(rps[id := r], tps[id := p])
  {
    var rps', tps' := rps[id := r], tps[id := p];
    forall i, j | i in rps' && j in rps' && i != j ensures Apart(rps', tps', i, j) {
      if i != id && j != id { assert Apart(rps, tps, i, j); }
    }
  }

  /** Every tenant has two bucket objects of its own, which show the values that `v` records. */
  ghost predicate Shown(rps: map<string, TokenBucket>, tps: map<string, TokenBucket>, buckets: set<TokenBucket>,
                        v: Limiter)
    reads buckets
  {
    && rps.Keys == tps.Keys == v.rps.Keys == v.tps.Keys
    && (forall i {:trigger rps[i]} :: i in rps ==>
          rps[i] in buckets && tps[i] in buckets && Pair(rps[i], tps[i], v.rps[i], v.tps[i]))
  }

  lemma ShownAdd(rps: map<string, TokenBucket>, tps: map<string, TokenBucket>, buckets: set<TokenBucket>, v: Limiter,
                 t: Tenant, r: TokenBucket, p: TokenBucket)
    requires Shown(rps, tps, buckets, v) && AllApart(rps, tps)
    requires t.id !in rps && r !in buckets && p !in buckets && r != p
    requires r.View() == NewBucket(if 1.0 < t.rps then t.rps else 1.0, t.rps) && p.View() == NewBucket(t.tps, t.tps)
    ensures Shown(rps[t.id := r], tps[t.id := p], buckets + {r, p}, WithBuckets(v, t))
    ensures AllApart(rps[t.id := r], tps[t.id := p])
  {
    ApartAdd(rps, tps, buckets, t.id, r, p);
    var rps', tps', v' := rps[t.id := r], tps[t.id := p], WithBuckets(v, t);
    forall i | i in rps' ensures Pair(rps'[i], tps'[i], v'.rps[i], v'.tps[i]) {
      if i != t.id { assert Pair(rps[i], tps[i], v.rps[i], v.tps[i]); }
    }
  }

  /** The buckets of `id` alone have changed: `u` records what they show now. */
  lemma ShownUpdate(rps: map<string, TokenBucket>, tps: map<string, TokenBucket>, buckets: set<TokenBucket>, v: Limiter,
                    id: string, u: Limiter)
    requires rps.Keys == tps.Keys == v.rps.Keys == v.tps.Keys && id in rps
    requires forall i {:trigger rps[i]} :: i in rps ==> rps[i] in buckets && tps[i] in buckets
    requires forall i {:trigger rps[i]} :: i in rps && i != id ==> Pair(rps[i], tps[i], v.rps[i], v.tps[i])
    requires rps[id] != tps[id]
    requires u.rps == v.rps[id := rps[id].View()] && u.tps == v.tps[id := tps[id].View()]
    ensures Shown(rps, tps, buckets, u)
  {
    forall i | i in rps ensures Pair(rps[i], tps[i], u.rps[i], u.tps[i]) {
      if i != id { assert Pair(rps[i], tps[i], v.rps[i], v.tps[i]); }
    }
  }

  class RateLimiter {
    var rps: map<string, TokenBucket>
    var tps: map<string, TokenBucket>
    var inflight: map<string, int>
    ghost var view: Limiter
    ghost var buckets: set<TokenBucket>

    ghost predicate Valid()
      reads this, buckets
    {
      Shown(rps, tps, buckets, view) && AllApart(rps, tps) && view.inflight == inflight
    }

    constructor ()
      ensures Valid() && fresh(buckets) && view == EMPTY
    {
      rps, tps, inflight := map[], map[], map[];
      view, buckets := EMPTY, {};
    }

    method EnsureBuckets(t: Tenant)
      requires Valid()
      modifies this
      ensures Valid() && view == WithBuckets(old(view), t) && t.id in rps && t.id in view.rps && t.id in view.tps
      ensures fresh(buckets - old(buckets)) && view.inflight == inflight == old(view).inflight
    {
      if t.id !in rps {
        var r := new TokenBucket(if 1.0 < t.rps then t.rps else 1.0, t.rps);
        var p := new TokenBucket(t.tps, t.tps);
        AddBuckets(t, r, p);
      }
    }

    method AddBuckets(t: Tenant, r: TokenBucket, p: TokenBucket)
      requires Valid() && t.id !in rps && r !in buckets && p !in buckets && r != p
      requires r.View() == NewBucket(if 1.0 < t.rps then t.rps else 1.0, t.rps) && p.View() == NewBucket(t.tps, t.tps)
      modifies this
      ensures Valid() && view == WithBuckets(old(view), t) && buckets == old(buckets) + {r, p}
      ensures t.id in rps && t.id in view.rps && t.id in view.tps && view.inflight == old(view).inflight
    {
      hide Shown, AllApart;
      ShownAdd(rps, tps, buckets, view, t, r, p);
      rps := rps[t.id := r];
      tps := tps[t.id := p];
      buckets := buckets + {r, p};
      view := WithBuckets(view, t);
      HasBuckets(t.id);
    }

    lemma HasBuckets(id: string)
      requires Valid() && id in rps
      ensures id in tps && id in view.rps && id in view.tps && rps[id] in buckets && tps[id] in buckets
      ensures rps[id] != tps[id] && rps[id].View() == view.rps[id] && tps[id].View() == view.tps[id]
    {
    }

    lemma OtherBuckets(id: string)
      requires Valid() && id in rps
      ensures rps.Keys == tps.Keys == view.rps.Keys == view.tps.Keys
      ensures forall i {:trigger rps[i]} :: i in rps ==> rps[i] in buckets && tps[i] in buckets
      ensures forall i {:trigger rps[i]} :: i in rps && i != id ==>
        && Pair(rps[i], tps[i], view.rps[i], view.tps[i])
        && rps[i] != rps[id] && rps[i] != tps[id] && tps[i] != rps[id] && tps[i] != tps[id]
    {
      forall i | i in rps && i != id
        ensures rps[i] != rps[id] && rps[i] != tps[id] && tps[i] != rps[id] && tps[i] != tps[id]
      {
        assert Apart(rps, tps, i, id);
      }
    }

    /** The two buckets of one tenant, judged in place. */
    method JudgeInPlace(r: TokenBucket, p: TokenBucket, count: int, maxInflight: int, cost: real, now: real)
      returns (reason: Reason, retry: Delay)
      requires r != p
      modifies r, p
      ensures var v := Judge(old(r.View()), old(p.View()), count, maxInflight, cost, now);
        reason == v.reason && retry == v.retryAfter && r.View() == v.rps && p.View() == v.tps
    {
      if count >= maxInflight {
        return Inflight, Seconds(1.0);
      }
      var enough := p.TryConsume(cost, now);
      if !enough {
        retry := p.DeficitSeconds(cost, now);
        return Tps, retry;
      }
      var one := r.TryConsume(1.0, now);
      if !one {
        p.AdjustBy(cost);
        retry := r.DeficitSeconds(1.0, now);
        return Rps, retry;
      }
      return Allowed, Seconds(0.0);
    }

    /** Judge one tenant's buckets. */
    method JudgeTenant(id: string, count: int, maxInflight: int, cost: real, now: real)
      returns (reason: Reason, retry: Delay, r: TokenBucket, p: TokenBucket)
      requires Valid() && id in rps && id in view.rps && id in view.tps
      modifies this`view, buckets
      ensures Valid()
      ensures var v := Judge(old(view).rps[id], old(view).tps[id], count, maxInflight, cost, now);
        && reason == v.reason && retry == v.retryAfter && r.View() == v.rps && p.View() == v.tps
        && view == old(view).(rps := old(view).rps[id := v.rps], tps := old(view).tps[id := v.tps])
    {
      hide Judge, TokenBucket.View, Pair, Shown, AllApart;
      label ready:
      HasBuckets(id);
      OtherBuckets(id);
      r, p := rps[id], tps[id];
      reason, retry := JudgeInPlace(r, p, count, maxInflight, cost, now);
      forall i | i in rps && i != id ensures Pair(rps[i], tps[i], view.rps[i], view.tps[i]) {
        assert old@ready(Pair(rps[i], tps[i], view.rps[i], view.tps[i]));
      }
      ghost var u := view.(rps := view.rps[id := r.View()], tps := view.tps[id := p.View()]);
      ShownUpdate(rps, tps, buckets, view, id, u);
      view := u;
    }

    method SetInflight(id: string, n: int)
      requires Valid()
      modifies this`inflight, this`view
      ensures Valid() && view == old(view).(inflight := old(view).inflight[id := n]) && rps == old(rps)
    {
      inflight := inflight[id := n];
      view := view.(inflight := inflight);
    }

    method Answer(reason: Reason, retry: Delay, r: TokenBucket, p: TokenBucket) returns (a: Admission)
      ensures a == Admission(reason, retry, r.View().tokens, p.View().tokens)
    {
      a := Admission(reason, retry, r.tokens, p.tokens);
    }

    method AdmitRequest(t: Tenant, cost: real, now: real) returns (a: Admission)
      requires Valid()
      modifies this, buckets
      ensures Valid() && fresh(buckets - old(buckets))
      ensures view == Admit(old(view), t, cost, now).0 && a == Admit(old(view), t, cost, now).1
    {
      hide Judge, WithBuckets, TokenBucket.View, RateLimiter.Valid;
      EnsureBuckets(t);
      var count := if t.id in inflight then inflight[t.id] else 0;
      var reason, retry, r, p := JudgeTenant(t.id, count, t.maxInflight, cost, now);
      a := Answer(reason, retry, r, p);
      if reason.Allowed? {
        SetInflight(t.id, count + 1);
      }
    }

    lemma SameInflight()
      requires Valid()
      ensures view.inflight == inflight
    {
    }

    /** Reconcile one tenant's token bucket. */
    method AdjustTenant(id: string, delta: real)
      requires Valid() && id in rps && id in view.tps
      modifies this`view, buckets
      ensures Valid() && view == old(view).(tps := old(view).tps[id := Adjust(old(view).tps[id], delta)])
    {
      hide Adjust, TokenBucket.View, Pair, Shown, AllApart;
      label ready:
      HasBuckets(id);
      OtherBuckets(id);
      ghost var u := view.(tps := view.tps[id := Adjust(view.tps[id], delta)]);
      tps[id].AdjustBy(delta);
      forall i | i in rps && i != id ensures Pair(rps[i], tps[i], view.rps[i], view.tps[i]) {
        assert old@ready(Pair(rps[i], tps[i], view.rps[i], view.tps[i]));
      }
      assert u.rps == view.rps[id := rps[id].View()];
      ShownUpdate(rps, tps, buckets, view, id, u);
      view := u;
    }

    method ReleaseRequest(t: Tenant, reserved: real, actual: real)
      requires Valid()
      modifies this, buckets
      ensures Valid() && fresh(buckets - old(buckets)) && view == Release(old(view), t, reserved, actual)
    {
      hide RateLimiter.Valid, WithBuckets, Adjust;
      SameInflight();
      var n := (if t.id in inflight then inflight[t.id] else 0) - 1;
      EnsureBuckets(t);
      SetInflight(t.id, if n < 0 then 0 else n);
      AdjustTenant(t.id, reserved - actual);
    }
  }

  // ------------------------------------------------------------------ rejection

  /** A rejected request leaves the request bucket as if it had only been refilled: from then on no observer
      can tell it from one that never saw the request.  So it does the token bucket, except in exactly one
      case: when requests are what is short, the refund is capped, and a bucket that still holds more than
      its capacity loses the rest. */
  lemma RejectionCostsNothing(rps: Bucket, tps: Bucket, inflight: int, maxInflight: int, cost: real, now: real,
                              later: real)
    requires rps.refill >= 0.0 && tps.refill >= 0.0 && now <= later
    ensures var v := Judge(rps, tps, inflight, maxInflight, cost, now);
      !v.reason.Allowed? ==>
        && Replenish(v.rps, later) == Replenish(rps, later)
        && (Replenish(v.tps, later) == Replenish(tps, later) <==>
              !(v.reason.Rps? && Replenish(tps, later).tokens > tps.capacity))
  {
    ReplenishTwice(rps, now, later);
    ReplenishTwice(tps, now, later);
    CappedRefund(Replenish(tps, now), cost, later);
    hide Replenish;
  }

  /** A refund of what was just taken shows unless the bucket is over-full at that moment. */
  lemma CappedRefund(b: Bucket, cost: real, later: real)
    requires b.refill >= 0.0
    ensures var b' := Adjust(b.(tokens := b.tokens - cost), cost);
      Replenish(b', later) == Replenish(b, later) <==> Replenish(b, later).tokens <= b.capacity
  {
    hide Earned;
    if later > b.ts { EarnedSplit(b.ts, b.ts, later, b.refill); }
  }

  /** A request dearer than the bucket can hold is never admitted while the bucket is in order, although the
      delay it is told is finite. */
  lemma TooDear(rps: Bucket, tps: Bucket, inflight: int, maxInflight: int, cost: real, now: real)
    requires BucketOk(tps) && cost > tps.capacity
    ensures var v := Judge(rps, tps, inflight, maxInflight, cost, now);
      !v.reason.Allowed? && (tps.refill > 0.0 ==> v.retryAfter.Seconds?)
  {
    ReplenishOk(tps, now);
  }

  /** What judging does to the request bucket, whatever the cost and the token bucket. */
  lemma JudgeRequests(rps: Bucket, tps: Bucket, inflight: int, maxInflight: int, cost: real, now: real)
    requires BucketOk(rps) && rps.tokens >= 0.0
    ensures var v := Judge(rps, tps, inflight, maxInflight, cost, now);
      && BucketOk(v.rps) && v.rps.tokens >= 0.0
      && v.rps.capacity == rps.capacity && v.rps.refill == rps.refill
      && Replenish(v.rps, now).tokens == Replenish(rps, now).tokens - if v.reason.Allowed? then 1.0 else 0.0
  {
    ReplenishOk(rps, now);
  }

  /** What judging does to the token bucket. */
  lemma JudgeTokens(rps: Bucket, tps: Bucket, inflight: int, maxInflight: int, cost: real, now: real)
    requires tps.refill >= 0.0
    ensures var v := Judge(rps, tps, inflight, maxInflight, cost, now);
      && v.tps.capacity == tps.capacity && v.tps.refill == tps.refill
      && Replenish(v.tps, now).tokens <= Replenish(tps, now).tokens - (if v.reason.Allowed? then cost else 0.0)
      && (v.reason.Allowed? ==> Replenish(v.tps, now).tokens >= 0.0)
      && v.tps.tokens <= RMax(tps.tokens, tps.capacity) + (if v.reason.Allowed? then Pos(-cost) else 0.0)
  {
  }

  // ------------------------------------------------------------------ runs

  datatype Call =
    | AdmitCall(t: Tenant, cost: real, now: real)
    | ReleaseCall(t: Tenant, reserved: real, actual: real)

  function Step(l: Limiter, c: Call): Limiter {
    match c
    case AdmitCall(t, cost, now) => Admit(l, t, cost, now).0
    case ReleaseCall(t, reserved, actual) => Release(l, t, reserved, actual)
  }

  function Run(l: Limiter, cs: seq<Call>): Limiter {
    if cs == [] then l else Step(Run(l, cs[..|cs| - 1]), cs[|cs| - 1])
  }

  /** The answers that tenant `id` gets. */
  function Answers(l: Limiter, cs: seq<Call>, id: string): seq<Admission> {
    if cs == [] then [] else
      var before, c := cs[..|cs| - 1], cs[|cs| - 1];
      Answers(l, before, id) +
      if c.AdmitCall? && c.t.id == id then [Admit(Run(l, before), c.t, c.cost, c.now).1] else []
  }

  /** The calls made for tenant `id`. */
  function Own(cs: seq<Call>, id: string): seq<Call> {
    if cs == [] then [] else
      Own(cs[..|cs| - 1], id) + if cs[|cs| - 1].t.id == id then [cs[|cs| - 1]] else []
  }

  /** Two limiters look the same to tenant `id`. */
  ghost predicate SameFor(l: Limiter, m: Limiter, id: string) {
    && (id in l.rps <==> id in m.rps) && (id in l.tps <==> id in m.tps)
    && (id in l.rps ==> l.rps[id] == m.rps[id]) && (id in l.tps ==> l.tps[id] == m.tps[id])
    && Inflights(l, id) == Inflights(m, id)
  }

  lemma StepForOther(l: Limiter, m: Limiter, c: Call, id: string)
    requires SameFor(l, m, id) && c.t.id != id
    ensures SameFor(Step(l, c), m, id)
  {
  }

  lemma StepForOwn(l: Limiter, m: Limiter, c: Call)
    requires SameFor(l, m, c.t.id)
    ensures SameFor(Step(l, c), Step(m, c), c.t.id)
    ensures c.AdmitCall? ==> Admit(l, c.t, c.cost, c.now).1 == Admit(m, c.t, c.cost, c.now).1
  {
    hide Judge;
  }

  /** Non-interference: in any interleaving, a tenant's answers are those it gets when it is alone. */
  lemma {:induction false} NonInterference(l: Limiter, cs: seq<Call>, id: string)
    ensures SameFor(Run(l, cs), Run(l, Own(cs, id)), id)
    ensures Answers(l, cs, id) == Answers(l, Own(cs, id), id)
  {
    if cs != [] {
      var before, c := cs[..|cs| - 1], cs[|cs| - 1];
      NonInterference(l, before, id);
      if c.t.id == id {
        var own := Own(before, id) + [c];
        assert own[..|own| - 1] == Own(before, id) && own[|own| - 1] == c;
        StepForOwn(Run(l, before), Run(l, Own(before, id)), c);
      } else {
        StepForOther(Run(l, before), Run(l, Own(before, id)), c, id);
        assert Own(cs, id) == Own(before, id);
      }
    }
  }

  // ------------------------------------------------------------------ windows of time

  /** `c` is an admission of tenant `id`. */
  predicate Admits(l: Limiter, c: Call, id: string) {
    c.AdmitCall? && c.t.id == id && Admit(l, c.t, c.cost, c.now).1.reason.Allowed?
  }

  /** Admissions happen between `from` and `to`, in order of time. */
  ghost predicate Timed(cs: seq<Call>, from: real, to: real) {
    && from <= to
    && (forall i :: 0 <= i < |cs| && cs[i].AdmitCall? ==> from <= cs[i].now <= to)
    && (forall i, j :: 0 <= i < j < |cs| && cs[i].AdmitCall? && cs[j].AdmitCall? ==> cs[i].now <= cs[j].now)
  }

  /** Time of the last admission attempt, or `from`. */
  function Clock(cs: seq<Call>, from: real): real {
    if cs == [] then from
    else if cs[|cs| - 1].AdmitCall? then cs[|cs| - 1].now
    else Clock(cs[..|cs| - 1], from)
  }

  lemma {:induction false} ClockBounds(cs: seq<Call>, from: real, to: real)
    requires Timed(cs, from, to)
    ensures from <= Clock(cs, from) <= to
  {
    if cs != [] && !cs[|cs| - 1].AdmitCall? {
      ClockBounds(cs[..|cs| - 1], from, to);
    }
  }

  lemma ClockOrder(cs: seq<Call>, from: real, to: real)
    requires cs != [] && Timed(cs, from, to)
    ensures from <= Clock(cs[..|cs| - 1], from) <= Clock(cs, from)
  {
    var before, c := cs[..|cs| - 1], cs[|cs| - 1];
    ClockBounds(before, from, to);
    if c.AdmitCall? {
      LastAdmit(before, from, c.now);
    }
  }

  lemma {:induction false} LastAdmit(cs: seq<Call>, from: real, bound: real)
    requires from <= bound && forall i :: 0 <= i < |cs| && cs[i].AdmitCall? ==> cs[i].now <= bound
    ensures Clock(cs, from) <= bound
  {
    if cs != [] && !cs[|cs| - 1].AdmitCall? {
      LastAdmit(cs[..|cs| - 1], from, bound);
    }
  }

  // ------------------------------------------------------------------ request rate

  /** How many requests of `id` are admitted. */
  function Admitted(l: Limiter, cs: seq<Call>, id: string): nat {
    if cs == [] then 0 else
      var before, c := cs[..|cs| - 1], cs[|cs| - 1];
      Admitted(l, before, id) + if Admits(Run(l, before), c, id) then 1 else 0
  }

  /** Every call for `id` carries the same request rate. */
  ghost predicate RateCalls(cs: seq<Call>, id: string, rate: real) {
    forall i :: 0 <= i < |cs| && cs[i].t.id == id ==> cs[i].t.rps == rate
  }

  function Burst(rate: real): real {
    if 1.0 < rate then rate else 1.0
  }

  /** The request bucket of `id`, if it exists, was made for `rate` and is in order. */
  ghost predicate RateOk(l: Limiter, id: string, rate: real) {
    && (id in l.rps <==> id in l.tps)
    && (id in l.rps ==>
          var b := l.rps[id]; BucketOk(b) && b.tokens >= 0.0 && b.capacity == Burst(rate) && b.refill == rate)
  }

  /** Request tokens that `id` would find at time `now`. */
  ghost function Credit(l: Limiter, id: string, rate: real, now: real): real {
    if id in l.rps then Replenish(l.rps[id], now).tokens else Burst(rate)
  }

  /** What an admission attempt does to the request credit of `id`, at its own time. */
  lemma CreditAdmit(l: Limiter, t: Tenant, cost: real, now: real, id: string, rate: real)
    requires RateOk(l, id, rate) && rate >= 0.0 && (t.id == id ==> t.rps == rate)
    ensures var (l', a) := Admit(l, t, cost, now);
      && RateOk(l', id, rate)
      && Credit(l', id, rate, now) == Credit(l, id, rate, now) - if t.id == id && a.reason.Allowed? then 1.0 else 0.0
  {
    var l1 := WithBuckets(l, t);
    if t.id == id {
      JudgeRequests(l1.rps[t.id], l1.tps[t.id], Inflights(l, t.id), t.maxInflight, cost, now);
      ReplenishOk(l1.rps[id], now);
    }
    hide Judge;
  }

  lemma CreditRelease(l: Limiter, t: Tenant, reserved: real, actual: real, now: real, id: string, rate: real)
    requires RateOk(l, id, rate) && rate >= 0.0 && (t.id == id ==> t.rps == rate)
    ensures var l' := Release(l, t, reserved, actual);
      RateOk(l', id, rate) && Credit(l', id, rate, now) == Credit(l, id, rate, now)
  {
    if t.id == id { ReplenishOk(WithBuckets(l, t).rps[t.id], now); }
  }

  lemma CreditWait(l: Limiter, id: string, rate: real, last: real, now: real)
    requires RateOk(l, id, rate) && rate >= 0.0 && last <= now
    ensures Credit(l, id, rate, now) <= Credit(l, id, rate, last) + Earned(last, now, rate)
  {
    hide Earned, Replenish;
    EarnedSplit(last, last, now, rate);
    if id in l.rps { ReplenishRate(l.rps[id], last, now); }
  }

  lemma CreditStep(l: Limiter, c: Call, id: string, rate: real, last: real, now: real)
    requires RateOk(l, id, rate) && rate >= 0.0 && last <= now
    requires (c.t.id == id ==> c.t.rps == rate) && (c.AdmitCall? ==> c.now == now)
    ensures var n := if Admits(l, c, id) then 1.0 else 0.0;
      && RateOk(Step(l, c), id, rate)
      && Credit(Step(l, c), id, rate, now) + n <= Credit(l, id, rate, last) + Earned(last, now, rate)
  {
    hide RateOk, Credit, Admit, Release, Earned;
    CreditWait(l, id, rate, last, now);
    match c
    case AdmitCall(t, cost, at) => CreditAdmit(l, t, cost, at, id, rate);
    case ReleaseCall(t, reserved, actual) => CreditRelease(l, t, reserved, actual, now, id, rate);
  }

  lemma {:induction false} CreditRun(l: Limiter, cs: seq<Call>, id: string, rate: real, from: real, to: real)
    requires RateOk(l, id, rate) && rate >= 0.0 && RateCalls(cs, id, rate) && Timed(cs, from, to)
    ensures RateOk(Run(l, cs), id, rate)
    ensures Credit(Run(l, cs), id, rate, Clock(cs, from)) + Admitted(l, cs, id) as real <=
      Credit(l, id, rate, from) + Earned(from, Clock(cs, from), rate)
  {
    hide RateOk, Credit, Step, Admits, Earned;
    EarnedSplit(from, from, from, rate);
    if cs != [] {
      var before, c := cs[..|cs| - 1], cs[|cs| - 1];
      CreditRun(l, before, id, rate, from, to);
      var last, now := Clock(before, from), Clock(cs, from);
      ClockOrder(cs, from, to);
      CreditStep(Run(l, before), c, id, rate, last, now);
      EarnedSplit(from, last, now, rate);
    }
  }

  /** Rate bound: from any reachable state, in any window of time, whatever other tenants do and whatever
      the requests cost, at most one burst plus the refill of the window is admitted. */
  lemma RateBound(past: seq<Call>, cs: seq<Call>, id: string, rate: real, from: real, to: real)
    requires rate >= 0.0 && RateCalls(past, id, rate) && RateCalls(cs, id, rate) && Timed(cs, from, to)
    ensures Admitted(Run(EMPTY, past), cs, id) as real <= (if 1.0 < rate then rate else 1.0) + (to - from) * rate
  {
    PastOk(past, id, rate);
    RateBoundFrom(Run(EMPTY, past), cs, id, rate, from, to);
  }

  lemma RateBoundFrom(l: Limiter, cs: seq<Call>, id: string, rate: real, from: real, to: real)
    requires RateOk(l, id, rate) && rate >= 0.0 && RateCalls(cs, id, rate) && Timed(cs, from, to)
    ensures Admitted(l, cs, id) as real <= Burst(rate) + Earned(from, to, rate)
  {
    hide RateOk, Credit, Admitted, Run, RateCalls, Clock, Burst, Earned;
    var now := Clock(cs, from);
    ClockBounds(cs, from, to);
    EarnedSplit(from, now, to, rate);
    CreditRun(l, cs, id, rate, from, to);
    CreditRange(l, id, rate, from);
    CreditRange(Run(l, cs), id, rate, now);
  }

  lemma CreditRange(l: Limiter, id: string, rate: real, now: real)
    requires RateOk(l, id, rate)
    ensures 0.0 <= Credit(l, id, rate, now) <= Burst(rate)
  {
    if id in l.rps { ReplenishOk(l.rps[id], now); }
  }

  lemma {:induction false} PastOk(past: seq<Call>, id: string, rate: real)
    requires rate >= 0.0 && RateCalls(past, id, rate)
    ensures RateOk(Run(EMPTY, past), id, rate)
  {
    if past != [] {
      var before, c := past[..|past| - 1], past[|past| - 1];
      PastOk(before, id, rate);
      var now := if c.AdmitCall? then c.now else 0.0;
      CreditStep(Run(EMPTY, before), c, id, rate, now, now);
    }
  }

  // ------------------------------------------------------------------ token rate

  /** What the admitted requests of `id` cost together, negative costs included. */
  function AdmittedCost(l: Limiter, cs: seq<Call>, id: string): real {
    if cs == [] then 0.0 else
      var before, c := cs[..|cs| - 1], cs[|cs| - 1];
      AdmittedCost(l, before, id) + if Admits(Run(l, before), c, id) then c.cost else 0.0
  }

  /** The positive costs among them. */
  function Spent(l: Limiter, cs: seq<Call>, id: string): (r: real)
    ensures r >= 0.0
  {
    if cs == [] then 0.0 else
      var before, c := cs[..|cs| - 1], cs[|cs| - 1];
      Spent(l, before, id) + if Admits(Run(l, before), c, id) then Pos(c.cost) else 0.0
  }

  /** The tokens that admitted negative costs put into the bucket. */
  function Minted(l: Limiter, cs: seq<Call>, id: string): (r: real)
    ensures r >= 0.0
  {
    if cs == [] then 0.0 else
      var before, c := cs[..|cs| - 1], cs[|cs| - 1];
      Minted(l, before, id) + if Admits(Run(l, before), c, id) then Pos(-c.cost) else 0.0
  }

  lemma {:induction false} NetCost(l: Limiter, cs: seq<Call>, id: string)
    ensures AdmittedCost(l, cs, id) == Spent(l, cs, id) - Minted(l, cs, id)
  {
    hide Admits;
    if cs != [] { NetCost(l, cs[..|cs| - 1], id); }
  }

  /** What a call gives back to the tokens of `id`: the unused part of a reservation. */
  function Refund(c: Call, id: string): (r: real)
    ensures r >= 0.0
  {
    if c.ReleaseCall? && c.t.id == id then Pos(c.reserved - c.actual) else 0.0
  }

  function Refunds(cs: seq<Call>, id: string): (r: real)
    ensures r >= 0.0
  {
    if cs == [] then 0.0 else Refunds(cs[..|cs| - 1], id) + Refund(cs[|cs| - 1], id)
  }

  /** Every call for `id` carries the same token rate. */
  ghost predicate QuotaCalls(cs: seq<Call>, id: string, quota: real) {
    forall i :: 0 <= i < |cs| && cs[i].t.id == id ==> cs[i].t.tps == quota
  }

  /** The token bucket of `id`, if it exists, was made for `quota`; it may be over-full. */
  ghost predicate QuotaOk(l: Limiter, id: string, quota: real) {
    && (id in l.rps <==> id in l.tps)
    && (id in l.tps ==> l.tps[id].capacity == quota && l.tps[id].refill == quota)
  }

  /** Tokens that `id` would find at time `now`; negative after a request that used more than reserved. */
  ghost function Tokens(l: Limiter, id: string, quota: real, now: real): real {
    if id in l.tps then Replenish(l.tps[id], now).tokens else quota
  }

  /** An upper bound of the same at any time. */
  ghost function Hoard(l: Limiter, id: string, quota: real): real {
    if id in l.tps then RMax(l.tps[id].tokens, quota) else quota
  }

  lemma NewTokens(quota: real, now: real)
    requires quota >= 0.0
    ensures Replenish(NewBucket(quota, quota), now).tokens == quota
  {
    EarnedSplit(0.0, 0.0, Pos(now), quota);
    hide Earned;
  }

  lemma TokensAdmit(l: Limiter, t: Tenant, cost: real, now: real, id: string, quota: real)
    requires QuotaOk(l, id, quota) && quota >= 0.0 && (t.id == id ==> t.tps == quota)
    ensures var l' := Admit(l, t, cost, now).0; var ok := Admits(l, AdmitCall(t, cost, now), id);
      && QuotaOk(l', id, quota)
      && Tokens(l', id, quota, now) <= Tokens(l, id, quota, now) - (if ok then cost else 0.0)
      && (ok ==> Tokens(l', id, quota, now) >= 0.0)
      && Hoard(l', id, quota) <= Hoard(l, id, quota) + (if ok then Pos(-cost) else 0.0)
  {
    var l1 := WithBuckets(l, t);
    if t.id == id {
      JudgeTokens(l1.rps[t.id], l1.tps[t.id], Inflights(l, t.id), t.maxInflight, cost, now);
      NewTokens(quota, now);
    }
    hide Judge, Replenish;
  }

  /** A refund shows up in full at most, and an over-full bucket is cut to its capacity. */
  lemma AdjustRate(b: Bucket, delta: real, now: real)
    ensures Adjust(b, delta).tokens <= b.capacity
    ensures Replenish(Adjust(b, delta), now).tokens <= Replenish(b, now).tokens + Pos(delta)
  {
    hide Earned;
  }

  lemma TokensRelease(l: Limiter, t: Tenant, reserved: real, actual: real, now: real, id: string, quota: real)
    requires QuotaOk(l, id, quota) && quota >= 0.0 && (t.id == id ==> t.tps == quota)
    ensures var l' := Release(l, t, reserved, actual);
      && QuotaOk(l', id, quota) && Hoard(l', id, quota) <= Hoard(l, id, quota)
      && Tokens(l', id, quota, now) <= Tokens(l, id, quota, now) + Refund(ReleaseCall(t, reserved, actual), id)
  {
    if t.id == id {
      AdjustRate(WithBuckets(l, t).tps[id], reserved - actual, now);
      NewTokens(quota, now);
    }
    hide Adjust, Replenish;
  }

  lemma TokensWait(l: Limiter, id: string, quota: real, last: real, now: real)
    requires QuotaOk(l, id, quota) && quota >= 0.0 && last <= now
    ensures Tokens(l, id, quota, now) <= Tokens(l, id, quota, last) + Earned(last, now, quota)
  {
    hide Earned, Replenish;
    EarnedSplit(last, last, now, quota);
    if id in l.tps { ReplenishRate(l.tps[id], last, now); }
  }

  lemma TokensStep(l: Limiter, c: Call, id: string, quota: real, last: real, now: real)
    requires QuotaOk(l, id, quota) && quota >= 0.0 && last <= now
    requires (c.t.id == id ==> c.t.tps == quota) && (c.AdmitCall? ==> c.now == now)
    ensures QuotaOk(Step(l, c), id, quota)
    ensures Tokens(Step(l, c), id, quota, now) + (if Admits(l, c, id) then c.cost else 0.0) <=
      Tokens(l, id, quota, last) + Earned(last, now, quota) + Refund(c, id)
    ensures Admits(l, c, id) ==> Tokens(Step(l, c), id, quota, now) >= 0.0
    ensures Hoard(Step(l, c), id, quota) <= Hoard(l, id, quota) + (if Admits(l, c, id) then Pos(-c.cost) else 0.0)
  {
    hide QuotaOk, Tokens, Admit, Release, Earned, Hoard;
    TokensWait(l, id, quota, last, now);
    match c
    case AdmitCall(t, cost, at) => TokensAdmit(l, t, cost, at, id, quota);
    case ReleaseCall(t, reserved, actual) => TokensRelease(l, t, reserved, actual, now, id, quota);
  }

  /** Conservation, whatever the signs of the costs: tokens left plus net cost admitted are at most the
      tokens found at first plus refill plus refunds.  After an admission the tokens left are not negative,
      so the net cost alone is within that too. */
  lemma {:induction false} TokenConservation(l: Limiter, cs: seq<Call>, id: string, quota: real, from: real, to: real)
    requires QuotaOk(l, id, quota) && quota >= 0.0 && QuotaCalls(cs, id, quota) && Timed(cs, from, to)
    ensures QuotaOk(Run(l, cs), id, quota)
    ensures Tokens(Run(l, cs), id, quota, Clock(cs, from)) + AdmittedCost(l, cs, id) <=
      Tokens(l, id, quota, from) + Earned(from, Clock(cs, from), quota) + Refunds(cs, id)
    ensures AdmittedCost(l, cs, id) <=
      Pos(Tokens(l, id, quota, from)) + Earned(from, Clock(cs, from), quota) + Refunds(cs, id)
  {
    hide QuotaOk, Tokens, Step, Admits, Refund, Earned, Pos;
    EarnedSplit(from, from, from, quota);
    if cs != [] {
      var before, c := cs[..|cs| - 1], cs[|cs| - 1];
      TokenConservation(l, before, id, quota, from, to);
      var last, now := Clock(before, from), Clock(cs, from);
      ClockOrder(cs, from, to);
      TokensStep(Run(l, before), c, id, quota, last, now);
      EarnedSplit(from, last, now, quota);
    }
  }

  /** A reachable bucket holds at most its capacity plus what negative costs have put in. */
  lemma {:induction false} HoardBound(past: seq<Call>, id: string, quota: real)
    requires quota >= 0.0 && QuotaCalls(past, id, quota)
    ensures QuotaOk(Run(EMPTY, past), id, quota)
    ensures Hoard(Run(EMPTY, past), id, quota) <= quota + Minted(EMPTY, past, id)
  {
    hide Step, Admits, Pos;
    if past != [] {
      var before, c := past[..|past| - 1], past[|past| - 1];
      HoardBound(before, id, quota);
      var now := if c.AdmitCall? then c.now else 0.0;
      TokensStep(Run(EMPTY, before), c, id, quota, now, now);
    }
  }

  lemma TokensHoard(l: Limiter, id: string, quota: real, now: real)
    requires QuotaOk(l, id, quota)
    ensures Tokens(l, id, quota, now) <= Hoard(l, id, quota) && Hoard(l, id, quota) >= quota
  {
  }

  /** No request of `id` costs less than nothing. */
  ghost predicate NoNegative(cs: seq<Call>, id: string) {
    forall i :: 0 <= i < |cs| && cs[i].AdmitCall? && cs[i].t.id == id ==> cs[i].cost >= 0.0
  }

  lemma {:induction false} NothingMinted(l: Limiter, cs: seq<Call>, id: string)
    requires NoNegative(cs, id)
    ensures Minted(l, cs, id) == 0.0
  {
    if cs != [] { NothingMinted(l, cs[..|cs| - 1], id); }
  }

  /** Token bound: from any reachable state, in any window of time, the positive costs admitted for a tenant
      are together at most a full bucket plus the refill of the window, plus what releases give back, plus
      what negative costs have put in.  Without negative costs the last part is nothing. */
  lemma TokenBound(past: seq<Call>, cs: seq<Call>, id: string, quota: real, from: real, to: real)
    requires quota >= 0.0 && QuotaCalls(past, id, quota) && QuotaCalls(cs, id, quota) && Timed(cs, from, to)
    ensures var l := Run(EMPTY, past);
      Spent(l, cs, id) <=
        quota + (to - from) * quota + Refunds(cs, id) + Minted(EMPTY, past, id) + Minted(l, cs, id)
    ensures NoNegative(past, id) && NoNegative(cs, id) ==>
      AdmittedCost(Run(EMPTY, past), cs, id) <= quota + (to - from) * quota + Refunds(cs, id)
  {
    hide QuotaOk, QuotaCalls, AdmittedCost, Spent, Minted, Run, Clock, Earned, Tokens, Hoard, Refunds, NoNegative;
    var l := Run(EMPTY, past);
    HoardBound(past, id, quota);
    TokensHoard(l, id, quota, from);
    TokenConservation(l, cs, id, quota, from, to);
    NetCost(l, cs, id);
    ClockBounds(cs, from, to);
    EarnedIs(from, to, quota);
    EarnedSplit(from, Clock(cs, from), to, quota);
    if NoNegative(past, id) && NoNegative(cs, id) {
      NothingMinted(EMPTY, past, id);
      NothingMinted(l, cs, id);
    }
  }

  // ------------------------------------------------------------------ what is not lost

  /** Spent and not given back: what admitted requests have cost and releases have debited, less what releases
      have refunded, never less than nothing. */
  function Owed(l: Limiter, cs: seq<Call>, id: string): (r: real)
    ensures r >= 0.0
  {
    if cs == [] then 0.0 else
      var before, c := cs[..|cs| - 1], cs[|cs| - 1];
      if Admits(Run(l, before), c, id) then Owed(l, before, id) + Pos(c.cost)
      else if c.ReleaseCall? && c.t.id == id then Pos(Owed(l, before, id) - (c.reserved - c.actual))
      else Owed(l, before, id)
  }

  /** A bucket with at least `x` tokens less a debt, but for its capacity. */
  ghost predicate AtLeast(tokens: real, quota: real, x: real, owed: real) {
    tokens >= RMin(quota, x) - owed
  }

  lemma WaitAtLeast(b: Bucket, last: real, now: real, x: real, owed: real)
    requires b.refill >= 0.0 && last <= now && owed >= 0.0
    requires b.ts <= last || now <= b.ts
    requires AtLeast(Replenish(b, last).tokens, b.capacity, x, owed)
    ensures AtLeast(Replenish(b, now).tokens, b.capacity,
                    x + (if now <= b.ts then 0.0 else Earned(last, now, b.refill)), owed)
  {
    hide Earned;
    EarnedSplit(last, last, now, b.refill);
    if b.ts <= last && b.ts < now { EarnedSplit(b.ts, last, now, b.refill); }
  }

  /** The bucket of `id` is not ahead of the clock. */
  ghost predicate InStep(l: Limiter, id: string, clock: real) {
    id in l.tps ==> l.tps[id].ts <= clock
  }

  lemma AdmitAtLeast(l: Limiter, t: Tenant, cost: real, now: real, id: string, quota: real, x: real, owed: real)
    requires QuotaOk(l, id, quota) && quota >= 0.0 && (t.id == id ==> t.tps == quota) && owed >= 0.0
    requires InStep(l, id, now) && now >= 0.0 && AtLeast(Tokens(l, id, quota, now), quota, x, owed)
    ensures var l' := Admit(l, t, cost, now).0; var ok := Admits(l, AdmitCall(t, cost, now), id);
      InStep(l', id, now) && AtLeast(Tokens(l', id, quota, now), quota, x, if ok then owed + Pos(cost) else owed)
  {
    NewTokens(quota, now);
    hide Earned;
  }

  lemma ReleaseAtLeast(l: Limiter, t: Tenant, reserved: real, actual: real, id: string, quota: real, now: real,
                       x: real, owed: real)
    requires QuotaOk(l, id, quota) && quota >= 0.0 && (t.id == id ==> t.tps == quota) && owed >= 0.0
    requires InStep(l, id, now) && now >= 0.0 && AtLeast(Tokens(l, id, quota, now), quota, x, owed)
    ensures var l' := Release(l, t, reserved, actual);
      && InStep(l', id, now)
      && AtLeast(Tokens(l', id, quota, now), quota, x, if t.id == id then Pos(owed - (reserved - actual)) else owed)
  {
    NewTokens(quota, now);
    if t.id == id {
      var b := WithBuckets(l, t).tps[id];
      if now > b.ts { EarnedSplit(b.ts, b.ts, now, quota); }
    }
    hide Earned;
  }
  lemma TokensStepAtLeast(l: Limiter, c: Call, id: string, quota: real, last: real, now: real, x: real, owed: real)
    requires QuotaOk(l, id, quota) && quota >= 0.0 && (c.t.id == id ==> c.t.tps == quota) && owed >= 0.0
    requires InStep(l, id, last) && 0.0 <= last <= now && (c.AdmitCall? ==> c.now == now)
    requires AtLeast(Tokens(l, id, quota, last), quota, x, owed)
    ensures var owed' :=
          if Admits(l, c, id) then owed + Pos(c.cost)
          else if c.ReleaseCall? && c.t.id == id then Pos(owed - (c.reserved - c.actual))
          else owed;
      InStep(Step(l, c), id, now)
      && AtLeast(Tokens(Step(l, c), id, quota, now), quota, x + Earned(last, now, quota), owed')
  {
    TokensLater(l, id, quota, last, now, x, owed);
    hide Admit, Release, Tokens, Earned, QuotaOk, AtLeast;
    match c
    case AdmitCall(t, cost, at) => AdmitAtLeast(l, t, cost, at, id, quota, x + Earned(last, now, quota), owed);
    case ReleaseCall(t, reserved, actual) =>
      ReleaseAtLeast(l, t, reserved, actual, id, quota, now, x + Earned(last, now, quota), owed);
  }

  lemma TokensLater(l: Limiter, id: string, quota: real, last: real, now: real, x: real, owed: real)
    requires QuotaOk(l, id, quota) && quota >= 0.0 && owed >= 0.0 && InStep(l, id, last) && last <= now
    requires AtLeast(Tokens(l, id, quota, last), quota, x, owed)
    ensures AtLeast(Tokens(l, id, quota, now), quota, x + Earned(last, now, quota), owed) && InStep(l, id, now)
  {
    hide Earned, Replenish;
    EarnedSplit(last, last, now, quota);
    if id in l.tps {
      WaitAtLeast(l.tps[id], last, now, x, owed);
      ReplenishAt(l.tps[id], now);
    }
  }

  lemma ReplenishAt(b: Bucket, now: real)
    ensures now <= b.ts ==> Replenish(b, now) == b
    ensures now == b.ts ==> forall last :: last == b.ts ==> Earned(last, now, b.refill) == 0.0
  {
  }

  /** Nothing is lost: from any state, at the end of any calls, the tokens are at least the quota, or what there
      was and has been earned if that is less, minus what is spent and not given back. */
  lemma {:induction false} TokensAtLeast(l: Limiter, cs: seq<Call>, id: string, quota: real, from: real, to: real)
    requires QuotaOk(l, id, quota) && quota >= 0.0 && QuotaCalls(cs, id, quota) && Timed(cs, from, to)
    requires InStep(l, id, from) && 0.0 <= from
    ensures QuotaOk(Run(l, cs), id, quota) && InStep(Run(l, cs), id, Clock(cs, from))
    ensures AtLeast(Tokens(Run(l, cs), id, quota, Clock(cs, from)), quota,
                    Tokens(l, id, quota, from) + Earned(from, Clock(cs, from), quota), Owed(l, cs, id))
  {
    hide QuotaOk, Tokens, Step, Admits, Earned, Pos, InStep;
    EarnedSplit(from, from, from, quota);
    if cs != [] {
      var before, c := cs[..|cs| - 1], cs[|cs| - 1];
      TokensAtLeast(l, before, id, quota, from, to);
      var last, now := Clock(before, from), Clock(cs, from);
      ClockOrder(cs, from, to);
      var x := Tokens(l, id, quota, from) + Earned(from, last, quota);
      TokensStepAtLeast(Run(l, before), c, id, quota, last, now, x, Owed(l, before, id));
      TokensStep(Run(l, before), c, id, quota, last, now);
      EarnedSplit(from, last, now, quota);
    }
  }

  /** The same for request credit, of which every admission takes one. */
  ghost predicate CreditInStep(l: Limiter, id: string, clock: real) {
    id in l.rps ==> l.rps[id].ts <= clock
  }

  lemma NewCredit(rate: real, now: real)
    requires rate >= 0.0
    ensures Replenish(NewBucket(Burst(rate), rate), now).tokens == Burst(rate)
  {
    if now > 0.0 { EarnedSplit(0.0, 0.0, now, rate); }
    hide Earned;
  }

  lemma CreditAdmitAtLeast(l: Limiter, t: Tenant, cost: real, now: real, id: string, rate: real, x: real, n: real)
    requires RateOk(l, id, rate) && rate >= 0.0 && (t.id == id ==> t.rps == rate) && n >= 0.0
    requires CreditInStep(l, id, now) && now >= 0.0 && AtLeast(Credit(l, id, rate, now), Burst(rate), x, n)
    ensures var l' := Admit(l, t, cost, now).0;
      CreditInStep(l', id, now)
      && AtLeast(Credit(l', id, rate, now), Burst(rate), x,
                 if Admits(l, AdmitCall(t, cost, now), id) then n + 1.0 else n)
  {
    CreditAdmit(l, t, cost, now, id, rate);
    hide Earned, Credit, RateOk;
  }

  lemma CreditLater(l: Limiter, id: string, rate: real, last: real, now: real, x: real, n: real)
    requires RateOk(l, id, rate) && rate >= 0.0 && n >= 0.0 && CreditInStep(l, id, last) && last <= now
    requires AtLeast(Credit(l, id, rate, last), Burst(rate), x, n)
    ensures AtLeast(Credit(l, id, rate, now), Burst(rate), x + Earned(last, now, rate), n) && CreditInStep(l, id, now)
  {
    hide Earned, Replenish;
    EarnedSplit(last, last, now, rate);
    if id in l.rps {
      WaitAtLeast(l.rps[id], last, now, x, n);
      ReplenishAt(l.rps[id], now);
    }
  }

  lemma CreditStepAtLeast(l: Limiter, c: Call, id: string, rate: real, last: real, now: real, x: real, n: real)
    requires RateOk(l, id, rate) && rate >= 0.0 && (c.t.id == id ==> c.t.rps == rate) && n >= 0.0
    requires CreditInStep(l, id, last) && 0.0 <= last <= now && (c.AdmitCall? ==> c.now == now)
    requires AtLeast(Credit(l, id, rate, last), Burst(rate), x, n)
    ensures CreditInStep(Step(l, c), id, now)
    ensures AtLeast(Credit(Step(l, c), id, rate, now), Burst(rate), x + Earned(last, now, rate),
                    if Admits(l, c, id) then n + 1.0 else n)
  {
    CreditLater(l, id, rate, last, now, x, n);
    hide Admit, Credit, Earned, RateOk, AtLeast;
    match c
    case AdmitCall(t, cost, at) => CreditAdmitAtLeast(l, t, cost, at, id, rate, x + Earned(last, now, rate), n);
    case ReleaseCall(t, reserved, actual) =>
      CreditRelease(l, t, reserved, actual, now, id, rate);
      ReleaseInStep(l, t, reserved, actual, id, now);
  }

  lemma ReleaseInStep(l: Limiter, t: Tenant, reserved: real, actual: real, id: string, now: real)
    requires CreditInStep(l, id, now) && now >= 0.0
    ensures CreditInStep(Release(l, t, reserved, actual), id, now)
  {
  }

  lemma {:induction false} CreditAtLeast(l: Limiter, cs: seq<Call>, id: string, rate: real, from: real, to: real)
    requires RateOk(l, id, rate) && rate >= 0.0 && RateCalls(cs, id, rate) && Timed(cs, from, to)
    requires CreditInStep(l, id, from) && 0.0 <= from
    ensures RateOk(Run(l, cs), id, rate) && CreditInStep(Run(l, cs), id, Clock(cs, from))
    ensures AtLeast(Credit(Run(l, cs), id, rate, Clock(cs, from)), Burst(rate),
                    Credit(l, id, rate, from) + Earned(from, Clock(cs, from), rate), Admitted(l, cs, id) as real)
  {
    hide RateOk, Credit, Step, Admits, Earned, CreditInStep, Burst;
    EarnedSplit(from, from, from, rate);
    if cs != [] {
      var before, c := cs[..|cs| - 1], cs[|cs| - 1];
      CreditAtLeast(l, before, id, rate, from, to);
      var last, now := Clock(before, from), Clock(cs, from);
      ClockOrder(cs, from, to);
      var x := Credit(l, id, rate, from) + Earned(from, last, rate);
      CreditStepAtLeast(Run(l, before), c, id, rate, last, now, x, Admitted(l, before, id) as real);
      CreditStep(Run(l, before), c, id, rate, last, now);
      EarnedSplit(from, last, now, rate);
    }
  }

  /** When a request is admitted, and why it is not: in-flight cap first, then tokens, then requests. */
  lemma AdmitsIff(l: Limiter, t: Tenant, cost: real, now: real)
    requires QuotaOk(l, t.id, t.tps) && RateOk(l, t.id, t.rps) && t.rps >= 0.0 && t.tps >= 0.0
    ensures var a := Admit(l, t, cost, now).1;
      var free := Inflights(l, t.id) < t.maxInflight;
      var tokens, credit := Tokens(l, t.id, t.tps, now), Credit(l, t.id, t.rps, now);
      && (a.reason.Allowed? <==> free && tokens >= cost && credit >= 1.0)
      && (a.reason.Inflight? <==> !free)
      && (a.reason.Tps? <==> free && tokens < cost)
      && (a.reason.Rps? <==> free && tokens >= cost && credit < 1.0)
      && (a.reason.Allowed? ==> a.retryAfter == Seconds(0.0)) && (a.reason.Inflight? ==> a.retryAfter == Seconds(1.0))
  {
    NewTokens(t.tps, now);
    NewCredit(t.rps, now);
    hide Replenish, Deficit;
  }

  /** What the answer says: what is left in the two buckets, and how long the missing tokens take to earn. */
  lemma AnswerIs(l: Limiter, t: Tenant, cost: real, now: real)
    requires QuotaOk(l, t.id, t.tps) && RateOk(l, t.id, t.rps) && t.rps >= 0.0 && t.tps >= 0.0
    ensures var (l', a) := Admit(l, t, cost, now);
      var tokens, credit := Tokens(l, t.id, t.tps, now), Credit(l, t.id, t.rps, now);
      && t.id in l'.rps && t.id in l'.tps
      && a.remainingRps == l'.rps[t.id].tokens && a.remainingTps == l'.tps[t.id].tokens
      && (a.reason.Allowed? ==> a.remainingRps == credit - 1.0 && a.remainingTps == tokens - cost)
      && (a.reason.Tps? ==>
            && a.remainingTps == tokens
            && a.retryAfter == if t.tps == 0.0 then Never else Seconds((cost - tokens) / t.tps))
      && (a.reason.Rps? ==>
            && a.remainingRps == credit && a.remainingTps == RMin(t.tps, tokens)
            && a.retryAfter == if t.rps == 0.0 then Never else Seconds((1.0 - credit) / t.rps))
  {
    NewTokens(t.tps, now);
    NewCredit(t.rps, now);
    hide Earned;
  }

  /** Liveness: after any calls, a request within the means of its tenant is admitted.  The means are the quota,
      or what there was and has been earned if that is less, minus what is spent and not given back; one
      request by the same reckoning; and a free slot. */
  lemma WithinMeansIsAdmitted(l: Limiter, cs: seq<Call>, t: Tenant, cost: real, from: real, to: real, now: real)
    requires QuotaOk(l, t.id, t.tps) && RateOk(l, t.id, t.rps) && t.rps >= 0.0 && t.tps >= 0.0
    requires QuotaCalls(cs, t.id, t.tps) && RateCalls(cs, t.id, t.rps) && Timed(cs, from, to)
    requires InStep(l, t.id, from) && CreditInStep(l, t.id, from) && 0.0 <= from && to <= now
    requires Inflights(Run(l, cs), t.id) < t.maxInflight
    requires cost <= RMin(t.tps, Tokens(l, t.id, t.tps, from) + (now - from) * t.tps) - Owed(l, cs, t.id)
    requires 1.0 <= RMin(if 1.0 < t.rps then t.rps else 1.0, Credit(l, t.id, t.rps, from) + (now - from) * t.rps)
                    - Admitted(l, cs, t.id) as real
    ensures Admit(Run(l, cs), t, cost, now).1.reason.Allowed?
  {
    EarnedIs(from, now, t.tps);
    EarnedIs(from, now, t.rps);
    hide *;
    MeansEarned(l, cs, t, cost, from, to, now, (now - from) * t.tps, (now - from) * t.rps);
  }

  lemma MeansEarned(l: Limiter, cs: seq<Call>, t: Tenant, cost: real, from: real, to: real, now: real,
                    e: real, f: real)
    requires QuotaOk(l, t.id, t.tps) && RateOk(l, t.id, t.rps) && t.rps >= 0.0 && t.tps >= 0.0
    requires QuotaCalls(cs, t.id, t.tps) && RateCalls(cs, t.id, t.rps) && Timed(cs, from, to)
    requires InStep(l, t.id, from) && CreditInStep(l, t.id, from) && 0.0 <= from && to <= now
    requires Inflights(Run(l, cs), t.id) < t.maxInflight
    requires e == Earned(from, now, t.tps) && f == Earned(from, now, t.rps)
    requires cost <= RMin(t.tps, Tokens(l, t.id, t.tps, from) + e) - Owed(l, cs, t.id)
    requires 1.0 <= RMin(if 1.0 < t.rps then t.rps else 1.0, Credit(l, t.id, t.rps, from) + f)
                    - Admitted(l, cs, t.id) as real
    ensures Admit(Run(l, cs), t, cost, now).1.reason.Allowed?
  {
    hide Admit, QuotaOk, RateOk, QuotaCalls, RateCalls, Tokens, Credit, Earned, Run, Owed, Admitted;
    hide InStep, CreditInStep, Inflights, Timed, Clock;
    var m, last := Run(l, cs), Clock(cs, from);
    ClockBounds(cs, from, to);
    TokensAtLeast(l, cs, t.id, t.tps, from, to);
    CreditAtLeast(l, cs, t.id, t.rps, from, to);
    var x, y := Tokens(l, t.id, t.tps, from), Credit(l, t.id, t.rps, from);
    TokensLater(m, t.id, t.tps, last, now, x + Earned(from, last, t.tps), Owed(l, cs, t.id));
    CreditLater(m, t.id, t.rps, last, now, y + Earned(from, last, t.rps), Admitted(l, cs, t.id) as real);
    EarnedSplit(from, last, now, t.tps);
    EarnedSplit(from, last, now, t.rps);
    AdmitsIff(m, t, cost, now);
  }

  /** An admission of cost `c` released at once at an actual cost `a` leaves everything as an admission of cost
      `a` and a release without remainder. */
  lemma RefundIsExact(l: Limiter, t: Tenant, c: real, a: real, now: real)
    requires 0.0 <= a <= c && (t.id in l.rps <==> t.id in l.tps) && t.tps >= 0.0
    requires t.id in l.tps ==> BucketOk(l.tps[t.id])
    requires Admit(l, t, c, now).1.reason.Allowed?
    ensures Admit(l, t, a, now).1.reason.Allowed?
    ensures Release(Admit(l, t, c, now).0, t, c, a) == Release(Admit(l, t, a, now).0, t, a, a)
    ensures Release(Admit(l, t, c, now).0, t, c, a).tps[t.id] == Admit(l, t, a, now).0.tps[t.id]
    ensures Inflights(l, t.id) >= 0 ==> Inflights(Release(Admit(l, t, c, now).0, t, c, a), t.id) == Inflights(l, t.id)
  {
    var b := WithBuckets(l, t).tps[t.id];
    ReplenishOk(b, now);
    hide Replenish;
  }

  // ------------------------------------------------------------------ negative costs

  /** A negative cost fills the bucket beyond its capacity, and at the same instant a request dearer than
      the quota is admitted: its cost exceeds the quota by as much as the first one put in. */
  lemma OverQuota(t: Tenant, c: real, now: real)
    requires t.rps >= 2.0 && t.tps >= 0.0 && t.maxInflight >= 2 && c > 0.0
    ensures var past, cs := [AdmitCall(t, -c, now)], [AdmitCall(t, t.tps + c, now)];
      && Timed(past, now, now) && Timed(cs, now, now) && Refunds(cs, t.id) == 0.0
      && AdmittedCost(Run(EMPTY, past), cs, t.id) == t.tps + c
  {
    var mint, spend := AdmitCall(t, -c, now), AdmitCall(t, t.tps + c, now);
    var l := Step(EMPTY, mint);
    NewTokens(t.tps, now);
    NewRequests(t.rps, now);
    assert [mint][..0] == [] && [spend][..0] == [];
    assert Run(EMPTY, [mint]) == l;
    assert Admits(l, spend, t.id) by {
      assert Replenish(l.tps[t.id], now).tokens == t.tps + c;
      assert Replenish(l.rps[t.id], now).tokens >= 1.0;
    }
    assert AdmittedCost(l, [spend], t.id) == AdmittedCost(l, [], t.id) + spend.cost;
    assert Refunds([spend], t.id) == Refunds([], t.id) + Refund(spend, t.id);
  }

  lemma NewRequests(rate: real, now: real)
    requires rate >= 1.0
    ensures Replenish(NewBucket(rate, rate), now).tokens == rate
  {
    NewTokens(rate, now);
  }

  /** All calls for the tenant are its own, and no request costs less than `m`. */
  ghost predicate TenantCalls(cs: seq<Call>, t: Tenant, m: real) {
    forall i :: 0 <= i < |cs| && cs[i].t.id == t.id ==> cs[i].t == t && (cs[i].AdmitCall? ==> cs[i].cost >= m)
  }

  /** A past up to `from` and a window after it, in order of time. */
  ghost predicate Chronicle(past: seq<Call>, cs: seq<Call>, t: Tenant, m: real, start: real, from: real, to: real) {
    TenantCalls(past, t, m) && TenantCalls(cs, t, m) && Timed(past, start, from) && Timed(cs, from, to)
  }

  ghost predicate WithinQuota(past: seq<Call>, cs: seq<Call>, t: Tenant, from: real, to: real) {
    AdmittedCost(Run(EMPTY, past), cs, t.id) <= t.tps + Earned(from, to, t.tps) + Refunds(cs, t.id)
  }

  /** Costs are at least zero, or between two admissions time passes or a slot is released. */
  predicate Safe(t: Tenant, m: real) {
    m >= 0.0 || t.rps < 2.0 || t.maxInflight < 2
  }

  /** While the token bucket is over-full, nothing can be admitted before a release or the passing of time
      cuts it: the one slot is taken, or the request bucket is short and as recent as the token bucket. */
  ghost predicate Locked(rps: Bucket, tps: Bucket, inflight: int, t: Tenant) {
    tps.tokens > t.tps ==>
      if t.maxInflight < 2 then inflight >= 1 else t.rps < 2.0 && rps.tokens < 1.0 && rps.ts >= tps.ts
  }

  /** The two buckets of the tenant at time `clock`. */
  ghost predicate PairOk(rps: Bucket, tps: Bucket, inflight: int, t: Tenant, clock: real) {
    && BucketOk(rps) && rps.tokens >= 0.0 && rps.capacity == Burst(t.rps) && rps.refill == t.rps
    && tps.capacity == t.tps && tps.refill == t.tps && inflight >= 0
    && 0.0 <= rps.ts <= tps.ts <= Pos(clock) && Locked(rps, tps, inflight, t)
  }

  /** From buckets in order, an admission finds no more than the quota, and the order is kept. */
  lemma JudgeLocked(rps: Bucket, tps: Bucket, inflight: int, t: Tenant, m: real, cost: real, clock: real, now: real)
    requires PairOk(rps, tps, inflight, t, clock) && Safe(t, m) && cost >= m && clock <= now
    requires t.rps >= 0.0 && t.tps >= 0.0
    ensures var v := Judge(rps, tps, inflight, t.maxInflight, cost, now);
      && PairOk(v.rps, v.tps, inflight + (if v.reason.Allowed? then 1 else 0), t, now)
      && (v.reason.Allowed? ==> Replenish(tps, now).tokens <= t.tps)
  {
    hide Earned;
    ReplenishOk(rps, now);
  }

  ghost predicate Guarded(l: Limiter, t: Tenant, clock: real) {
    && (t.id in l.rps <==> t.id in l.tps) && Inflights(l, t.id) >= 0
    && (t.id in l.rps ==> PairOk(l.rps[t.id], l.tps[t.id], Inflights(l, t.id), t, clock))
  }

  lemma NewPairOk(t: Tenant, inflight: int, clock: real)
    requires inflight >= 0
    requires t.rps >= 0.0
    ensures PairOk(NewBucket(Burst(t.rps), t.rps), NewBucket(t.tps, t.tps), inflight, t, clock)
  {
  }

  lemma GuardedAdmit(l: Limiter, u: Tenant, cost: real, t: Tenant, m: real, clock: real, now: real)
    requires Guarded(l, t, clock) && Safe(t, m) && clock <= now && t.rps >= 0.0 && t.tps >= 0.0
    requires u.id == t.id ==> u == t && cost >= m
    ensures Guarded(Admit(l, u, cost, now).0, t, now)
    ensures Admits(l, AdmitCall(u, cost, now), t.id) ==> Tokens(l, t.id, t.tps, now) <= t.tps
  {
    if u.id == t.id {
      var l1 := WithBuckets(l, t);
      NewPairOk(t, Inflights(l, t.id), clock);
      JudgeLocked(l1.rps[t.id], l1.tps[t.id], Inflights(l, t.id), t, m, cost, clock, now);
    }
    hide Judge, PairOk, Replenish;
  }

  lemma GuardedLater(l: Limiter, t: Tenant, clock: real, now: real)
    requires Guarded(l, t, clock) && clock <= now
    ensures Guarded(l, t, now)
  {
  }

  lemma GuardedRelease(l: Limiter, u: Tenant, reserved: real, actual: real, t: Tenant, clock: real)
    requires Guarded(l, t, clock) && t.rps >= 0.0 && (u.id == t.id ==> u == t)
    ensures Guarded(Release(l, u, reserved, actual), t, clock)
  {
    NewPairOk(t, Inflights(l, t.id), clock);
  }

  lemma GuardedStep(l: Limiter, c: Call, t: Tenant, m: real, clock: real, now: real)
    requires Guarded(l, t, clock) && Safe(t, m) && clock <= now && t.rps >= 0.0 && t.tps >= 0.0
    requires c.t.id == t.id ==> c.t == t && (c.AdmitCall? ==> c.cost >= m)
    requires c.AdmitCall? ==> c.now == now
    ensures Guarded(Step(l, c), t, now)
    ensures Admits(l, c, t.id) ==> Tokens(l, t.id, t.tps, now) <= t.tps
  {
    hide Guarded, Admit, Release, Tokens;
    match c
    case AdmitCall(u, cost, at) => GuardedAdmit(l, u, cost, t, m, clock, now);
    case ReleaseCall(u, reserved, actual) =>
      GuardedLater(l, t, clock, now);
      GuardedRelease(l, u, reserved, actual, t, now);
  }

  lemma GuardedQuota(l: Limiter, t: Tenant, clock: real)
    requires Guarded(l, t, clock)
    ensures QuotaOk(l, t.id, t.tps)
  {
  }

  /** In order of time and under the condition, the net cost admitted stays within quota, refill and
      refunds. */
  lemma {:induction false} QuotaRun(l: Limiter, cs: seq<Call>, t: Tenant, m: real, from: real, to: real)
    requires Guarded(l, t, from) && Safe(t, m) && t.rps >= 0.0 && t.tps >= 0.0
    requires TenantCalls(cs, t, m) && Timed(cs, from, to)
    ensures Guarded(Run(l, cs), t, Clock(cs, from))
    ensures var net, bound := AdmittedCost(l, cs, t.id),
          t.tps + Earned(from, Clock(cs, from), t.tps) + Refunds(cs, t.id);
      && net <= bound
      && if Admitted(l, cs, t.id) == 0 then net == 0.0
         else Tokens(Run(l, cs), t.id, t.tps, Clock(cs, from)) + net <= bound
  {
    hide Guarded, Tokens, Step, Admits, Refund, Earned;
    EarnedSplit(from, from, from, t.tps);
    if cs != [] {
      var before, c := cs[..|cs| - 1], cs[|cs| - 1];
      QuotaRun(l, before, t, m, from, to);
      var last, now := Clock(before, from), Clock(cs, from);
      var mid := Run(l, before);
      ClockOrder(cs, from, to);
      GuardedStep(mid, c, t, m, last, now);
      GuardedQuota(mid, t, last);
      TokensStep(mid, c, t.id, t.tps, last, now);
      TokensStep(mid, c, t.id, t.tps, now, now);
      EarnedSplit(from, last, now, t.tps);
      EarnedSplit(now, now, now, t.tps);
    }
  }

  lemma ChronicleWithin(past: seq<Call>, cs: seq<Call>, t: Tenant, m: real, start: real, from: real, to: real)
    requires t.rps >= 0.0 && t.tps >= 0.0 && Safe(t, m) && Chronicle(past, cs, t, m, start, from, to)
    ensures WithinQuota(past, cs, t, from, to)
  {
    hide Guarded, Tokens, Earned, AdmittedCost, Refunds, TenantCalls, Timed, Clock, Admitted;
    GuardedEmpty(t, start);
    QuotaRun(EMPTY, past, t, m, start, from);
    ClockBounds(past, start, from);
    var l := Run(EMPTY, past);
    GuardedLater(l, t, Clock(past, start), from);
    QuotaRun(l, cs, t, m, from, to);
    ClockBounds(cs, from, to);
    EarnedSplit(from, Clock(cs, from), to, t.tps);
  }

  lemma GuardedEmpty(t: Tenant, clock: real)
    ensures Guarded(EMPTY, t, clock)
  {
  }

  /** The exact condition on the caller: in every history in order of time whose costs are at least `m`,
      every window stays within quota, refill and refunds, if and only if `m` is at least zero, or the
      request rate is below two, or the in-flight cap is. */
  lemma TokenBoundIff(t: Tenant, m: real)
    requires t.rps >= 0.0 && t.tps >= 0.0
    ensures (forall past, cs, start, from, to :: Chronicle(past, cs, t, m, start, from, to) ==>
               WithinQuota(past, cs, t, from, to))
      <==> Safe(t, m)
  {
    hide Chronicle, WithinQuota;
    if Safe(t, m) {
      forall past, cs, start, from, to | Chronicle(past, cs, t, m, start, from, to)
        ensures WithinQuota(past, cs, t, from, to)
      {
        ChronicleWithin(past, cs, t, m, start, from, to);
      }
    } else {
      UnsafeChronicle(t, m);
    }
  }

  lemma UnsafeChronicle(t: Tenant, m: real)
    requires t.tps >= 0.0 && !Safe(t, m)
    ensures var past, cs := [AdmitCall(t, m, 0.0)], [AdmitCall(t, t.tps - m, 0.0)];
      Chronicle(past, cs, t, m, 0.0, 0.0, 0.0) && !WithinQuota(past, cs, t, 0.0, 0.0)
  {
    hide AdmittedCost, Run, Refunds, Timed;
    OverQuota(t, -m, 0.0);
    assert -(-m) == m && t.tps + -m == t.tps - m;
  }

  // ------------------------------------------------------------------ requests in flight

  function Released(cs: seq<Call>, id: string): nat {
    if cs == [] then 0 else
      var c := cs[|cs| - 1];
      Released(cs[..|cs| - 1], id) + if c.ReleaseCall? && c.t.id == id then 1 else 0
  }

  /** Every release for `id` ends a request in flight. */
  ghost predicate NoStray(l: Limiter, cs: seq<Call>, id: string) {
    cs == [] ||
      (var before, c := cs[..|cs| - 1], cs[|cs| - 1];
       NoStray(l, before, id) && (c.ReleaseCall? && c.t.id == id ==> Inflights(Run(l, before), id) > 0))
  }

  /** No call for `id` carries a larger cap than `m`. */
  ghost predicate CappedBy(cs: seq<Call>, id: string, m: int) {
    forall i :: 0 <= i < |cs| && cs[i].t.id == id ==> cs[i].t.maxInflight <= m
  }

  lemma InflightStep(l: Limiter, c: Call, id: string)
    ensures Inflights(Step(l, c), id) ==
      if Admits(l, c, id) then Inflights(l, id) + 1
      else if c.ReleaseCall? && c.t.id == id then Max(0, Inflights(l, id) - 1)
      else Inflights(l, id)
    ensures Admits(l, c, id) ==> c.AdmitCall? && c.t.id == id && Inflights(l, id) < c.t.maxInflight
  {
  }

  /** The in-flight counter never falls below admissions minus releases, equals it when no release is
      stray, and stays within the cap. */
  lemma {:induction false} InflightRun(l: Limiter, cs: seq<Call>, id: string, m: int)
    requires 0 <= Inflights(l, id) <= Max(m, 0) && CappedBy(cs, id, m)
    ensures 0 <= Inflights(Run(l, cs), id) <= Max(m, 0)
    ensures Inflights(Run(l, cs), id) >= Inflights(l, id) + Admitted(l, cs, id) - Released(cs, id)
    ensures NoStray(l, cs, id) ==>
      Inflights(Run(l, cs), id) == Inflights(l, id) + Admitted(l, cs, id) - Released(cs, id)
  {
    hide Admits, Step, Inflights;
    if cs != [] {
      var before, c := cs[..|cs| - 1], cs[|cs| - 1];
      InflightRun(l, before, id, m);
      InflightStep(Run(l, before), c, id);
    }
  }

  /** In-flight cap: after any calls, over any further calls, admissions exceed releases by at most what the
      cap leaves free. */
  lemma InflightCap(past: seq<Call>, cs: seq<Call>, id: string, m: int)
    requires CappedBy(past, id, m) && CappedBy(cs, id, m)
    ensures var l := Run(EMPTY, past);
      && 0 <= Inflights(l, id) <= Max(m, 0)
      && Admitted(l, cs, id) - Released(cs, id) <= Max(m, 0) - Inflights(l, id)
  {
    InflightRun(EMPTY, past, id, m);
    InflightRun(Run(EMPTY, past), cs, id, m);
  }
}
