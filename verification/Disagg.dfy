/** The prefill/decode split decision (gateway/disagg/router.py, pools.py and kv_transfer.py). */
module Disagg {
  import opened Basics

  datatype Role = Prefill | Decode

  /** Backend ids in registration order with their roles. */
  datatype Pools = Pools(order: seq<string>, roles: map<string, set<Role>>)

  function Pool(ps: Pools, need: set<Role>): (r: seq<string>)
    ensures forall b :: b in r <==> b in ps.order && b in ps.roles && need <= ps.roles[b]
  {
    PoolOf(ps.order, ps.roles, need)
  }

  function PoolOf(order: seq<string>, roles: map<string, set<Role>>, need: set<Role>): (r: seq<string>)
    ensures forall b :: b in r <==> b in order && b in roles && need <= roles[b]
  {
    if order == [] then [] else
      var rest := PoolOf(order[1..], roles, need);
      assert order == [order[0]] + order[1..];
      if order[0] in roles && need <= roles[order[0]] then [order[0]] + rest else rest
  }

  datatype Config = Config(prefillMsPerToken: real, decodeMsPerToken: real, prefillServiceMs: real,
                           decodeServiceMs: real, blockTokens: int, kvBytesPerToken: real, linkGbps: real,
                           maxInflight: int, kvCutoff: real, marginMs: real)

  datatype Load = Load(inflight: map<string, int>, kvUsage: map<string, real>) {
    function Inflight(b: string): int {
      if b in inflight then inflight[b] else 0
    }
    function Kv(b: string): real {
      if b in kvUsage then kvUsage[b] else 0.0
    }
  }

  /** What the caller knows about one request. */
  datatype Request = Request(promptTokens: int, outputTokens: int, matched: map<string, int>)

  function PrefillMs(b: string, q: Request, l: Load, cfg: Config): real {
    var cached := (if b in q.matched then q.matched[b] else 0) * cfg.blockTokens;
    var uncached := if q.promptTokens - cached < 0 then 0 else q.promptTokens - cached;
    cfg.prefillMsPerToken * uncached as real + l.Inflight(b) as real * cfg.prefillServiceMs
  }

  function DecodeMs(b: string, q: Request, l: Load, cfg: Config): real {
    cfg.decodeMsPerToken * q.outputTokens as real + l.Inflight(b) as real * cfg.decodeServiceMs
  }

  function TransferMs(tokens: int, bytesPerToken: real, linkGbps: real): (r: real)
    ensures bytesPerToken >= 0.0 ==> r >= 0.0
  {
    if tokens <= 0 || linkGbps <= 0.0 then 0.0
    else
      var bytes := tokens as real * bytesPerToken;
      var rate := linkGbps * 1000000.0;
      assert bytesPerToken >= 0.0 ==> bytes >= 0.0;
      assert bytes >= 0.0 ==> bytes / rate >= 0.0;
      bytes / rate
  }

  predicate Eligible(b: string, l: Load, cfg: Config) {
    l.Inflight(b) <= cfg.maxInflight && l.Kv(b) <= cfg.kvCutoff
  }

  function EligibleOf(pool: seq<string>, l: Load, cfg: Config): (r: seq<string>)
    ensures forall b :: b in r <==> b in pool && Eligible(b, l, cfg)
  {
    if pool == [] then [] else
      assert pool == [pool[0]] + pool[1..];
      var rest := EligibleOf(pool[1..], l, cfg);
      if Eligible(pool[0], l, cfg) then [pool[0]] + rest else rest
  }

  /** The unsaturated backends, or the whole pool when every one is saturated. */
  function Candidates(pool: seq<string>, l: Load, cfg: Config): (r: seq<string>)
    ensures forall b :: b in r ==> b in pool
    ensures r == [] <==> pool == []
    ensures (exists b :: b in pool && Eligible(b, l, cfg)) ==> forall b :: b in r <==> b in pool && Eligible(b, l, cfg)
    ensures !(exists b :: b in pool && Eligible(b, l, cfg)) ==> r == pool
  {
    var e := EligibleOf(pool, l, cfg);
    if e == [] then
      assert forall b :: b in pool ==> !Eligible(b, l, cfg) by {
        forall b | b in pool ensures !Eligible(b, l, cfg) { assert b !in e; }
      }
      pool
    else
      assert e[0] in e;
      e
  }

  /** The first of the cheapest. */
  function ArgMin(cands: seq<string>, cost: string -> real): (b: string)
    requires cands != []
    ensures b in cands && forall c :: c in cands ==> cost(b) <= cost(c)
  {
    if |cands| == 1 then cands[0] else
      var init := cands[..|cands| - 1];
      var last := cands[|cands| - 1];
      assert cands == init + [last];
      var best := ArgMin(init, cost);
      if cost(last) < cost(best) then last else best
  }

  /** Nobody as cheap comes earlier. */
  lemma {:induction false} ArgMinEarliest(cands: seq<string>, cost: string -> real) returns (i: nat)
    requires cands != []
    ensures i < |cands| && cands[i] == ArgMin(cands, cost) && forall j :: 0 <= j < i ==> cost(cands[j]) > cost(cands[i])
  {
    if |cands| == 1 {
      return 0;
    }
    var init, last := cands[..|cands| - 1], cands[|cands| - 1];
    i := ArgMinEarliest(init, cost);
    if cost(last) < cost(ArgMin(init, cost)) {
      i := |cands| - 1;
      assert forall j :: 0 <= j < i ==> cands[j] in init;
    }
  }

  /** Cost of prefilling on `p` and decoding on `d`; only a real split pays the handoff. */
  function PairMs(p: string, d: string, q: Request, l: Load, cfg: Config): real {
    PrefillMs(p, q, l, cfg) + (if p == d then 0.0 else TransferMs(q.promptTokens, cfg.kvBytesPerToken, cfg.linkGbps))
    + DecodeMs(d, q, l, cfg)
  }

  /** The three costs as functions of the backend. */
  function PrefillCost(q: Request, l: Load, cfg: Config): string -> real {
    b => PrefillMs(b, q, l, cfg)
  }

  function DecodeCost(q: Request, l: Load, cfg: Config): string -> real {
    b => DecodeMs(b, q, l, cfg)
  }

  function NodeCost(q: Request, l: Load, cfg: Config): string -> real {
    b => PairMs(b, b, q, l, cfg)
  }

  datatype Decision = Unroutable | Route(prefill: string, decode: string, disaggregated: bool,
                                         estPrefill: real, estDecode: real, estHandoff: real, estTotal: real)

  function RouteTo(p: string, d: string, q: Request, l: Load, cfg: Config): (r: Decision)
    ensures r.Route? && r.estTotal == PairMs(p, d, q, l, cfg) && (r.disaggregated <==> p != d)
  {
    var h := if p == d then 0.0 else TransferMs(q.promptTokens, cfg.kvBytesPerToken, cfg.linkGbps);
    var pre, dec := PrefillMs(p, q, l, cfg), DecodeMs(d, q, l, cfg);
    Route(p, d, p != d, pre, dec, h, pre + h + dec)
  }

  /** The candidate lists after filling in for an empty pool. */
  function Sides(ps: Pools, l: Load, cfg: Config): (r: (seq<string>, seq<string>))
    ensures r.0 == [] <==> r.1 == []
  {
    var pc := Candidates(Pool(ps, {Prefill}), l, cfg);
    var dc := Candidates(Pool(ps, {Decode}), l, cfg);
    (if pc == [] then dc else pc, if dc == [] then pc else dc)
  }

  /** The decision, as a function. */
  function Choice(ps: Pools, q: Request, l: Load, cfg: Config): Decision {
    var (pc, dc) := Sides(ps, l, cfg);
    if pc == [] then Unroutable
    else
      var bp := ArgMin(pc, PrefillCost(q, l, cfg));
      var bd := ArgMin(dc, DecodeCost(q, l, cfg));
      var both := Candidates(Pool(ps, {Prefill, Decode}), l, cfg);
      if both == [] then RouteTo(bp, bd, q, l, cfg)
      else
        var node := ArgMin(both, NodeCost(q, l, cfg));
        if bp != bd && PairMs(bp, bd, q, l, cfg) + cfg.marginMs < PairMs(node, node, q, l, cfg) then
          RouteTo(bp, bd, q, l, cfg)
        else RouteTo(node, node, q, l, cfg)
  }

  /** The loop over the co-locatable backends. */
  method CheapestNode(both: seq<string>, q: Request, l: Load, cfg: Config) returns (node: string, best: real)
    requires both != []
    ensures node == ArgMin(both, NodeCost(q, l, cfg)) && best == PairMs(node, node, q, l, cfg)
  {
    hide PrefillMs, DecodeMs, TransferMs;
    node := both[0];
    best := PrefillMs(node, q, l, cfg) + DecodeMs(node, q, l, cfg);
    assert both[..1] == [both[0]];
    for i := 1 to |both|
      invariant node == ArgMin(both[..i], NodeCost(q, l, cfg)) && best == PairMs(node, node, q, l, cfg)
    {
      assert both[..i + 1][..i] == both[..i];
      var total := PrefillMs(both[i], q, l, cfg) + DecodeMs(both[i], q, l, cfg);
      if total < best {
        best, node := total, both[i];
      }
    }
    assert both[..|both|] == both;
  }

  /** The decision with the loop over co-locatable backends. */
  method ChooseDisaggregated(ps: Pools, q: Request, l: Load, cfg: Config) returns (r: Decision)
    ensures r == Choice(ps, q, l, cfg)
  {
    hide PrefillMs, DecodeMs, PairMs, Candidates, Pool, ArgMin, RouteTo, Sides;
    var (pc, dc) := Sides(ps, l, cfg);
    if pc == [] {
      return Unroutable;
    }
    var bp := ArgMin(pc, PrefillCost(q, l, cfg));
    var bd := ArgMin(dc, DecodeCost(q, l, cfg));
    var splitTotal := PairMs(bp, bd, q, l, cfg);
    var both := Candidates(Pool(ps, {Prefill, Decode}), l, cfg);
    if both == [] {
      return RouteTo(bp, bd, q, l, cfg);
    }
    var node, best := CheapestNode(both, q, l, cfg);
    if bp != bd && splitTotal + cfg.marginMs < best {
      r := RouteTo(bp, bd, q, l, cfg);
    } else {
      r := RouteTo(node, node, q, l, cfg);
    }
  }

  // ------------------------------------------------------------------ near-optimality

  /** A backend that is a candidate on both sides is a co-location candidate, saturated or not. */
  lemma SharedIsColocated(ps: Pools, l: Load, cfg: Config, b: string)
    requires b in Candidates(Pool(ps, {Prefill}), l, cfg) && b in Candidates(Pool(ps, {Decode}), l, cfg)
    ensures b in Candidates(Pool(ps, {Prefill, Decode}), l, cfg)
  {
    var both := Pool(ps, {Prefill, Decode});
    assert {Prefill, Decode} <= ps.roles[b];
    assert b in both;
    if x :| x in both && Eligible(x, l, cfg) {
      assert {Prefill} <= {Prefill, Decode} <= ps.roles[x];
      assert x in Pool(ps, {Prefill});
      assert Eligible(b, l, cfg);
    }
  }

  function Abs(x: real): real {
    if x < 0.0 then -x else x
  }

  /** With both pools non-empty, picking the two sides separately in linear time costs at most the margin
      more than the cheapest of all pairs, and at most the margin's negative part more than the best
      co-located backend. */
  lemma NearOptimal(ps: Pools, q: Request, l: Load, cfg: Config, p: string, d: string)
    requires cfg.kvBytesPerToken >= 0.0
    requires p in Candidates(Pool(ps, {Prefill}), l, cfg) && d in Candidates(Pool(ps, {Decode}), l, cfg)
    ensures var r := Choice(ps, q, l, cfg);
      && r.Route? && r.estTotal <= PairMs(p, d, q, l, cfg) + Abs(cfg.marginMs)
      && forall b :: b in Candidates(Pool(ps, {Prefill, Decode}), l, cfg) ==>
           r.estTotal <= PairMs(b, b, q, l, cfg) + (if cfg.marginMs < 0.0 then -cfg.marginMs else 0.0)
  {
    hide PrefillMs, DecodeMs, TransferMs, Candidates;
    var pc, dc := Candidates(Pool(ps, {Prefill}), l, cfg), Candidates(Pool(ps, {Decode}), l, cfg);
    var bp := ArgMin(pc, PrefillCost(q, l, cfg));
    var bd := ArgMin(dc, DecodeCost(q, l, cfg));
    assert PrefillCost(q, l, cfg)(bp) <= PrefillCost(q, l, cfg)(p);
    assert DecodeCost(q, l, cfg)(bd) <= DecodeCost(q, l, cfg)(d);
    assert forall b :: NodeCost(q, l, cfg)(b) == PairMs(b, b, q, l, cfg);
    if p == d { SharedIsColocated(ps, l, cfg, p); }
    if bp == bd { SharedIsColocated(ps, l, cfg, bp); }
  }

  lemma HeadIsMember(s: seq<string>)
    ensures s == [] || s[0] in s
  {
  }

  lemma ColocatedServesBoth(ps: Pools, b: string)
    requires b in Pool(ps, {Prefill, Decode})
    ensures b in Pool(ps, {Prefill}) && b in Pool(ps, {Decode})
  {
    assert {Prefill} <= {Prefill, Decode} <= ps.roles[b];
    assert {Decode} <= {Prefill, Decode} <= ps.roles[b];
  }

  /** Without the assumption on the pools the claim fails.  If every backend only decodes, the two sides
      are still picked separately among all of them, but none counts as co-locatable, so the split is
      taken whatever it costs. */
  lemma OneEmptyPool(ps: Pools, q: Request, l: Load, cfg: Config, p: string, d: string)
    requires Pool(ps, {Prefill}) == [] && (forall b :: b in Pool(ps, {Decode}) <==> b == p || b == d)
    requires Eligible(p, l, cfg) && Eligible(d, l, cfg)
    requires PrefillMs(p, q, l, cfg) < PrefillMs(d, q, l, cfg) && DecodeMs(d, q, l, cfg) < DecodeMs(p, q, l, cfg)
    ensures Choice(ps, q, l, cfg) == RouteTo(p, d, q, l, cfg)
  {
    hide PrefillMs, DecodeMs, TransferMs, PairMs, ArgMin, RouteTo;
    var decode := Pool(ps, {Decode});
    var dc := Candidates(decode, l, cfg);
    assert p in decode && d in decode;
    assert forall b :: b in dc <==> b == p || b == d;
    var bp := ArgMin(dc, PrefillCost(q, l, cfg));
    var bd := ArgMin(dc, DecodeCost(q, l, cfg));
    assert PrefillCost(q, l, cfg)(bp) <= PrefillCost(q, l, cfg)(p);
    assert DecodeCost(q, l, cfg)(bd) <= DecodeCost(q, l, cfg)(d);
    NoneColocated(ps);
  }

  /** What still holds then: the two sides are cheapest separately, so at most one handoff is wasted. */
  lemma WithinOneHandoff(ps: Pools, q: Request, l: Load, cfg: Config, p: string, d: string)
    requires cfg.kvBytesPerToken >= 0.0
    requires Pool(ps, {Prefill, Decode}) == [] && p in Sides(ps, l, cfg).0 && d in Sides(ps, l, cfg).1
    ensures var r := Choice(ps, q, l, cfg);
      r.Route? && r.estTotal <= PairMs(p, d, q, l, cfg) + TransferMs(q.promptTokens, cfg.kvBytesPerToken, cfg.linkGbps)
  {
    hide PrefillMs, DecodeMs, TransferMs, Candidates, Sides;
    var (pc, dc) := Sides(ps, l, cfg);
    var bp := ArgMin(pc, PrefillCost(q, l, cfg));
    var bd := ArgMin(dc, DecodeCost(q, l, cfg));
    assert PrefillCost(q, l, cfg)(bp) <= PrefillCost(q, l, cfg)(p);
    assert DecodeCost(q, l, cfg)(bd) <= DecodeCost(q, l, cfg)(d);
  }

  /** The decision for `q` under load `l` costs at most the margin more than any pair of candidates. */
  ghost predicate WithinMargin(ps: Pools, q: Request, l: Load, cfg: Config) {
    forall p, d :: p in Sides(ps, l, cfg).0 && d in Sides(ps, l, cfg).1 ==>
      Choice(ps, q, l, cfg).Route? && Choice(ps, q, l, cfg).estTotal <= PairMs(p, d, q, l, cfg) + cfg.marginMs
  }

  ghost predicate InSomePool(ps: Pools, b: string) {
    b in Pool(ps, {Prefill}) || b in Pool(ps, {Decode})
  }

  /** At most one backend has a role at all. */
  ghost predicate AtMostOneBackend(ps: Pools) {
    forall b, c :: InSomePool(ps, b) && InSomePool(ps, c) ==> b == c
  }

  /** Exactly which pools keep the promise for every request and every load: those with members on both
      sides, those with no more than one backend, and all of them when a handoff costs nothing. */
  lemma WithinMarginIff(ps: Pools, cfg: Config)
    requires cfg.prefillMsPerToken > 0.0 && cfg.blockTokens > 0
    requires cfg.kvBytesPerToken >= 0.0 && cfg.marginMs >= 0.0
    ensures (forall q, l :: WithinMargin(ps, q, l, cfg)) <==>
      || (Pool(ps, {Prefill}) != [] && Pool(ps, {Decode}) != [])
      || AtMostOneBackend(ps)
      || cfg.kvBytesPerToken == 0.0 || cfg.linkGbps <= 0.0
  {
    hide WithinMargin, AtMostOneBackend;
    var pp, dp := Pool(ps, {Prefill}), Pool(ps, {Decode});
    if pp != [] && dp != [] {
      forall q, l ensures WithinMargin(ps, q, l, cfg) { BothPoolsWithin(ps, q, l, cfg); }
    } else if AtMostOneBackend(ps) {
      forall q, l ensures WithinMargin(ps, q, l, cfg) { OneBackendWithin(ps, q, l, cfg); }
    } else if cfg.kvBytesPerToken == 0.0 || cfg.linkGbps <= 0.0 {
      NoneColocated(ps);
      forall q, l ensures WithinMargin(ps, q, l, cfg) { FreeHandoffWithin(ps, q, l, cfg); }
    } else {
      var q, l := BreaksMargin(ps, cfg);
    }
  }

  lemma BothPoolsWithin(ps: Pools, q: Request, l: Load, cfg: Config)
    requires cfg.kvBytesPerToken >= 0.0 && cfg.marginMs >= 0.0
    requires Pool(ps, {Prefill}) != [] && Pool(ps, {Decode}) != []
    ensures WithinMargin(ps, q, l, cfg)
  {
    hide PairMs, Choice, Candidates, Pool;
    forall p, d | p in Sides(ps, l, cfg).0 && d in Sides(ps, l, cfg).1
      ensures Choice(ps, q, l, cfg).Route? && Choice(ps, q, l, cfg).estTotal <= PairMs(p, d, q, l, cfg) + cfg.marginMs
    {
      NearOptimal(ps, q, l, cfg, p, d);
    }
  }

  lemma OneBackendWithin(ps: Pools, q: Request, l: Load, cfg: Config)
    requires AtMostOneBackend(ps) && (Pool(ps, {Prefill}) == [] || Pool(ps, {Decode}) == []) && cfg.marginMs >= 0.0
    ensures WithinMargin(ps, q, l, cfg)
  {
    hide PairMs, RouteTo, PrefillMs, DecodeMs, Pool;
    var (pc, dc) := Sides(ps, l, cfg);
    NoneColocated(ps);
    forall p, d | p in pc && d in dc
      ensures Choice(ps, q, l, cfg).Route? && Choice(ps, q, l, cfg).estTotal <= PairMs(p, d, q, l, cfg) + cfg.marginMs
    {
      assert forall b :: b in pc || b in dc ==> InSomePool(ps, b);
      assert ArgMin(pc, PrefillCost(q, l, cfg)) == p && ArgMin(dc, DecodeCost(q, l, cfg)) == d;
    }
  }

  lemma FreeHandoffWithin(ps: Pools, q: Request, l: Load, cfg: Config)
    requires Pool(ps, {Prefill, Decode}) == [] && cfg.marginMs >= 0.0 && cfg.kvBytesPerToken >= 0.0
    requires cfg.kvBytesPerToken == 0.0 || cfg.linkGbps <= 0.0
    ensures WithinMargin(ps, q, l, cfg)
  {
    hide PairMs, Choice, Candidates, Pool, TransferMs;
    FreeTransfer(q.promptTokens, cfg);
    forall p, d | p in Sides(ps, l, cfg).0 && d in Sides(ps, l, cfg).1
      ensures Choice(ps, q, l, cfg).Route? && Choice(ps, q, l, cfg).estTotal <= PairMs(p, d, q, l, cfg) + cfg.marginMs
    {
      WithinOneHandoff(ps, q, l, cfg, p, d);
    }
  }

  lemma FreeTransfer(tokens: int, cfg: Config)
    requires cfg.kvBytesPerToken == 0.0 || cfg.linkGbps <= 0.0
    ensures TransferMs(tokens, cfg.kvBytesPerToken, cfg.linkGbps) == 0.0
  {
  }

  lemma NoneColocated(ps: Pools)
    requires Pool(ps, {Prefill}) == [] || Pool(ps, {Decode}) == []
    ensures Pool(ps, {Prefill, Decode}) == []
  {
    var both := Pool(ps, {Prefill, Decode});
    hide Pool;
    HeadIsMember(both);
    if both != [] {
      ColocatedServesBoth(ps, both[0]);
    }
  }

  /** On an idle fleet every backend of the pool is a candidate. */
  lemma IdleCandidates(pool: seq<string>, cfg: Config)
    ensures Candidates(pool, Load(map[], map[]), cfg) == pool
  {
    EligibleAllOrNone(pool, cfg);
  }

  lemma {:induction false} EligibleAllOrNone(pool: seq<string>, cfg: Config)
    ensures var e := EligibleOf(pool, Load(map[], map[]), cfg); e == pool || e == []
    ensures pool != [] && Eligible(pool[0], Load(map[], map[]), cfg) ==>
      EligibleOf(pool, Load(map[], map[]), cfg) == pool
  {
    if pool != [] {
      EligibleAllOrNone(pool[1..], cfg);
      assert pool == [pool[0]] + pool[1..];
    }
  }

  /** Among equals the first is taken. */
  lemma {:induction false} ArgMinFirst(cands: seq<string>, cost: string -> real)
    requires cands != [] && forall b, c :: b in cands && c in cands ==> cost(b) == cost(c)
    ensures ArgMin(cands, cost) == cands[0]
  {
    if |cands| > 1 { ArgMinFirst(cands[..|cands| - 1], cost); }
  }

  /** With one pool empty and two backends in the other, on an idle fleet: the whole prompt is cached on
      `a`, decoding costs the same everywhere, and the first backend is not `a`.  The decision then hands
      the prompt over from `a` to the first backend; for a long enough prompt that costs more than the
      margin, while `a` alone costs nothing. */
  lemma BreaksMargin(ps: Pools, cfg: Config) returns (q: Request, l: Load)
    requires cfg.prefillMsPerToken > 0.0 && cfg.kvBytesPerToken > 0.0 && cfg.linkGbps > 0.0
    requires cfg.blockTokens > 0 && cfg.marginMs >= 0.0
    requires (Pool(ps, {Prefill}) == [] || Pool(ps, {Decode}) == []) && !AtMostOneBackend(ps)
    ensures !WithinMargin(ps, q, l, cfg)
  {
    var pool, a := TwoBackends(ps);
    var n := LongTransfer(cfg);
    q, l := Request(n, 0, map[a := n]), Load(map[], map[]);
    IdleSides(ps, pool, cfg);
    NoneColocated(ps);
    IdleCosts(cfg, a, n);
    hide Sides, PrefillMs, DecodeMs, TransferMs, Candidates, Pool;
    var bp := ArgMin(pool, PrefillCost(q, l, cfg));
    assert PrefillCost(q, l, cfg)(bp) <= PrefillCost(q, l, cfg)(a);
    ArgMinFirst(pool, DecodeCost(q, l, cfg));
    assert Choice(ps, q, l, cfg) == RouteTo(a, pool[0], q, l, cfg);
    assert PairMs(a, a, q, l, cfg) == 0.0;
  }

  /** The one pool that is not empty, and a backend of it that is not the first. */
  lemma TwoBackends(ps: Pools) returns (pool: seq<string>, a: string)
    requires (Pool(ps, {Prefill}) == [] || Pool(ps, {Decode}) == []) && !AtMostOneBackend(ps)
    ensures pool == Pool(ps, {Prefill}) || pool == Pool(ps, {Decode})
    ensures pool == Pool(ps, {Prefill}) + Pool(ps, {Decode})
    ensures a in pool && pool[0] != a
  {
    hide Pool;
    var pp, dp := Pool(ps, {Prefill}), Pool(ps, {Decode});
    pool := pp + dp;
    assert pp + [] == pp && [] + dp == dp;
    var b, c :| InSomePool(ps, b) && InSomePool(ps, c) && b != c;
    a := if b == pool[0] then c else b;
  }

  lemma IdleSides(ps: Pools, pool: seq<string>, cfg: Config)
    requires Pool(ps, {Prefill}) == [] || Pool(ps, {Decode}) == []
    requires pool == Pool(ps, {Prefill}) + Pool(ps, {Decode})
    ensures Sides(ps, Load(map[], map[]), cfg) == (pool, pool)
  {
    IdleCandidates(Pool(ps, {Prefill}), cfg);
    IdleCandidates(Pool(ps, {Decode}), cfg);
    assert Pool(ps, {Prefill}) + [] == Pool(ps, {Prefill}) && [] + Pool(ps, {Decode}) == Pool(ps, {Decode});
  }

  /** A prompt whose transfer takes longer than the margin. */
  lemma LongTransfer(cfg: Config) returns (n: int)
    requires cfg.kvBytesPerToken > 0.0 && cfg.linkGbps > 0.0 && cfg.marginMs >= 0.0
    ensures n > 0 && TransferMs(n, cfg.kvBytesPerToken, cfg.linkGbps) > cfg.marginMs
  {
    var rate := cfg.linkGbps * 1000000.0;
    var need := cfg.marginMs * rate;
    var x := need / cfg.kvBytesPerToken;
    DivMul(need, cfg.kvBytesPerToken);
    n := Max(x.Floor + 1, 1);
    MulMonoStrict(x, n as real, cfg.kvBytesPerToken);
    var bytes := n as real * cfg.kvBytesPerToken;
    DivAbove(bytes, rate, cfg.marginMs);
  }

  lemma IdleCosts(cfg: Config, a: string, n: int)
    requires cfg.prefillMsPerToken > 0.0 && cfg.blockTokens > 0 && n > 0
    ensures var q, l := Request(n, 0, map[a := n]), Load(map[], map[]);
      && PrefillMs(a, q, l, cfg) == 0.0
      && (forall b :: b != a ==> PrefillMs(b, q, l, cfg) > 0.0)
      && (forall b :: DecodeMs(b, q, l, cfg) == 0.0)
  {
    IntMulMono(1, cfg.blockTokens, n);
    MulMonoStrict(0.0, cfg.prefillMsPerToken, n as real);
  }

  /** An input on which that split pays a handoff that one backend alone would not: 101 ms against 2 ms. */
  lemma OneEmptyPoolPaysHandoff()
    ensures var ps := Pools(["a", "b"], map["a" := {Decode}, "b" := {Decode}]);
      var cfg := Config(1.0, 1.0, 1.0, 1.0, 1, 1000000.0, 1.0, 64, 0.9, 1.0);
      var q := Request(100, 0, map["a" := 100]);
      var l := Load(map["a" := 1], map[]);
      var r := Choice(ps, q, l, cfg);
      r.Route? && r.estTotal == 101.0 && PairMs("a", "a", q, l, cfg) == 2.0
  {
    hide ArgMin, Candidates, PoolOf, Choice;
    var ps := Pools(["a", "b"], map["a" := {Decode}, "b" := {Decode}]);
    var cfg := Config(1.0, 1.0, 1.0, 1.0, 1, 1000000.0, 1.0, 64, 0.9, 1.0);
    var q := Request(100, 0, map["a" := 100]);
    var l := Load(map["a" := 1], map[]);
    assert PrefillMs("a", q, l, cfg) == 1.0 && PrefillMs("b", q, l, cfg) == 100.0;
    assert DecodeMs("a", q, l, cfg) == 1.0 && DecodeMs("b", q, l, cfg) == 0.0;
    assert TransferMs(100, 1000000.0, 1.0) == 100.0;
    var prefill := Pool(ps, {Prefill});
    assert Prefill !in {Decode};
    HeadIsMember(prefill);
    OneEmptyPool(ps, q, l, cfg, "a", "b");
  }

  // ------------------------------------------------------------------ costs and eligibility, field by field

  /** The cost of a prefill: uncached prompt tokens at their rate, requests in flight at their service time. */
  lemma PrefillIs(b: string, q: Request, l: Load, cfg: Config)
    ensures var matched := if b in q.matched then q.matched[b] else 0;
      var flying := if b in l.inflight then l.inflight[b] else 0;
      var cached := matched * cfg.blockTokens;
      var uncached := if q.promptTokens > cached then q.promptTokens - cached else 0;
      PrefillMs(b, q, l, cfg) == cfg.prefillMsPerToken * uncached as real + flying as real * cfg.prefillServiceMs
  {
  }

  lemma DecodeIs(b: string, q: Request, l: Load, cfg: Config)
    ensures var flying := if b in l.inflight then l.inflight[b] else 0;
      DecodeMs(b, q, l, cfg) == cfg.decodeMsPerToken * q.outputTokens as real + flying as real * cfg.decodeServiceMs
  {
  }

  /** What a decision estimates: the two phases, and for a real split the bytes of the prompt over the link. */
  lemma EstimatesAre(ps: Pools, q: Request, l: Load, cfg: Config)
    requires Choice(ps, q, l, cfg).Route?
    ensures var r := Choice(ps, q, l, cfg);
      && r.estPrefill == PrefillMs(r.prefill, q, l, cfg) && r.estDecode == DecodeMs(r.decode, q, l, cfg)
      && r.estTotal == r.estPrefill + r.estHandoff + r.estDecode
      && (r.disaggregated <==> r.prefill != r.decode)
      && if r.prefill == r.decode then r.estHandoff == 0.0 else IsTransferTime(r.estHandoff, q.promptTokens, cfg)
  {
    hide Choice, PrefillMs, DecodeMs, TransferMs, IsTransferTime;
    var r := ChoiceRoutes(ps, q, l, cfg);
    TransferIs(q.promptTokens, cfg);
  }

  /** Milliseconds to move the tokens' bytes over the link; without tokens or without a link none. */
  ghost predicate IsTransferTime(t: real, tokens: int, cfg: Config) {
    if tokens <= 0 || cfg.linkGbps <= 0.0 then t == 0.0
    else t * (cfg.linkGbps * 1000000.0) == tokens as real * cfg.kvBytesPerToken
  }

  /** Every decision is the route to some pair. */
  lemma ChoiceRoutes(ps: Pools, q: Request, l: Load, cfg: Config) returns (r: Decision)
    requires Choice(ps, q, l, cfg).Route?
    ensures r == Choice(ps, q, l, cfg) && r == RouteTo(r.prefill, r.decode, q, l, cfg)
  {
    hide ArgMin, Sides, Candidates, Pool, PairMs, PrefillMs, DecodeMs, TransferMs;
    r := Choice(ps, q, l, cfg);
  }

  lemma TransferIs(tokens: int, cfg: Config)
    ensures IsTransferTime(TransferMs(tokens, cfg.kvBytesPerToken, cfg.linkGbps), tokens, cfg)
  {
    if tokens > 0 && cfg.linkGbps > 0.0 {
      DivMul(tokens as real * cfg.kvBytesPerToken, cfg.linkGbps * 1000000.0);
    }
  }

  /** Each block already cached saves its tokens, as long as the prompt has them. */
  lemma CachedBlockSaves(b: string, q: Request, l: Load, cfg: Config, n: nat)
    requires (n + 1) * cfg.blockTokens <= q.promptTokens && cfg.blockTokens >= 0
    ensures PrefillMs(b, q.(matched := q.matched[b := n]), l, cfg) ==
      PrefillMs(b, q.(matched := q.matched[b := n + 1]), l, cfg) + cfg.prefillMsPerToken * cfg.blockTokens as real
  {
    var u := q.promptTokens - (n + 1) * cfg.blockTokens;
    assert n * cfg.blockTokens + cfg.blockTokens == (n + 1) * cfg.blockTokens;
    assert cfg.prefillMsPerToken * (u + cfg.blockTokens) as real ==
      cfg.prefillMsPerToken * u as real + cfg.prefillMsPerToken * cfg.blockTokens as real;
  }

  /** A backend with more requests in flight or more cache pressure than allowed serves a phase only when every
      backend of that pool, or of those that serve both phases, is over one of the limits. */
  ghost predicate Overloaded(b: string, l: Load, cfg: Config) {
    || (if b in l.inflight then l.inflight[b] else 0) > cfg.maxInflight
    || (if b in l.kvUsage then l.kvUsage[b] else 0.0) > cfg.kvCutoff
  }

  lemma OverloadedLast(ps: Pools, q: Request, l: Load, cfg: Config)
    requires Pool(ps, {Prefill}) != [] && Pool(ps, {Decode}) != [] && Choice(ps, q, l, cfg).Route?
    ensures var r := Choice(ps, q, l, cfg);
      if r.disaggregated then
        && (Overloaded(r.prefill, l, cfg) ==> forall b :: b in Pool(ps, {Prefill}) ==> Overloaded(b, l, cfg))
        && (Overloaded(r.decode, l, cfg) ==> forall b :: b in Pool(ps, {Decode}) ==> Overloaded(b, l, cfg))
      else Overloaded(r.prefill, l, cfg) ==> forall b :: b in Pool(ps, {Prefill, Decode}) ==> Overloaded(b, l, cfg)
  {
    hide PrefillMs, DecodeMs, PairMs, TransferMs, Pool, Candidates, Overloaded, Eligible;
    OverloadedCandidates(Pool(ps, {Prefill}), l, cfg);
    OverloadedCandidates(Pool(ps, {Decode}), l, cfg);
    OverloadedCandidates(Pool(ps, {Prefill, Decode}), l, cfg);
    var bp := ArgMin(Candidates(Pool(ps, {Prefill}), l, cfg), PrefillCost(q, l, cfg));
    var bd := ArgMin(Candidates(Pool(ps, {Decode}), l, cfg), DecodeCost(q, l, cfg));
    if bp == bd { SharedIsColocated(ps, l, cfg, bp); }
  }

  lemma OverloadedCandidates(pool: seq<string>, l: Load, cfg: Config)
    ensures forall b :: b in Candidates(pool, l, cfg) ==>
      b in pool && (Overloaded(b, l, cfg) ==> forall c :: c in pool ==> Overloaded(c, l, cfg))
  {
    forall b | b in Candidates(pool, l, cfg) && Overloaded(b, l, cfg)
      ensures forall c :: c in pool ==> Overloaded(c, l, cfg)
    {
      assert !Eligible(b, l, cfg);
    }
  }

  /** A split is chosen if and only if some pair of two backends beats every co-located candidate by more than
      the margin. */
  lemma SplitIff(ps: Pools, q: Request, l: Load, cfg: Config)
    requires cfg.kvBytesPerToken >= 0.0 && cfg.marginMs >= 0.0
    requires Pool(ps, {Prefill}) != [] && Pool(ps, {Decode}) != [] && Pool(ps, {Prefill, Decode}) != []
    ensures var pc, dc := Candidates(Pool(ps, {Prefill}), l, cfg), Candidates(Pool(ps, {Decode}), l, cfg);
      var both := Candidates(Pool(ps, {Prefill, Decode}), l, cfg);
      && Choice(ps, q, l, cfg).Route?
      && (Choice(ps, q, l, cfg).disaggregated <==>
            exists p, d :: Beats(p, d, pc, dc, both, q, l, cfg))
  {
    hide PrefillMs, DecodeMs, TransferMs, Candidates, Pool;
    var pc, dc := Candidates(Pool(ps, {Prefill}), l, cfg), Candidates(Pool(ps, {Decode}), l, cfg);
    var both := Candidates(Pool(ps, {Prefill, Decode}), l, cfg);
    var bp := ArgMin(pc, PrefillCost(q, l, cfg));
    var bd := ArgMin(dc, DecodeCost(q, l, cfg));
    var node := ArgMin(both, NodeCost(q, l, cfg));
    assert forall b :: b in both ==> NodeCost(q, l, cfg)(node) <= NodeCost(q, l, cfg)(b);
    if Choice(ps, q, l, cfg).disaggregated {
      assert Beats(bp, bd, pc, dc, both, q, l, cfg);
    }
    if p, d :| Beats(p, d, pc, dc, both, q, l, cfg) {
      assert PrefillCost(q, l, cfg)(bp) <= PrefillCost(q, l, cfg)(p);
      assert DecodeCost(q, l, cfg)(bd) <= DecodeCost(q, l, cfg)(d);
      if bp == bd { SharedIsColocated(ps, l, cfg, bp); }
    }
  }

  ghost predicate Beats(p: string, d: string, pc: seq<string>, dc: seq<string>, both: seq<string>,
                        q: Request, l: Load, cfg: Config)
  {
    && p in pc && d in dc && p != d
    && forall b :: b in both ==> PairMs(p, d, q, l, cfg) + cfg.marginMs < PairMs(b, b, q, l, cfg)
  }
}
