/** The scaling controller and its closed loop (gateway/autoscale/planner.py). */
module Planner {
  import opened Basics
  import opened Queueing

  datatype Config = Config(minReplicas: int, maxReplicas: int, serviceRate: real, targetWaitMs: real,
                           targetUtilization: real, upCooldown: real, downCooldown: real, maxStep: int, deadband: int)

  /** Time of the last scaling in a direction, if there was one. */
  datatype Last = Never | At(s: real)

  datatype Signal = Signal(offeredRps: real, current: int, now: real, lastUp: Last, lastDown: Last)

  datatype Direction = Up | Down | Hold

  datatype Decision = Decision(current: int, desired: int, direction: Direction, sloReplicas: int, utilReplicas: int,
                               estWait: Wait, blocked: bool)

  function Ceil(x: real): int {
    -((-x).Floor)
  }

  function UtilReplicas(lam: real, mu: real, targetUtil: real): int {
    if lam <= 0.0 || mu <= 0.0 then 0
    else if targetUtil <= 0.0 then 1
    else Ceil(lam / mu / targetUtil)
  }

  function Load(rps: real): real {
    if rps < 0.0 then 0.0 else rps
  }

  /** The replica count the load asks for, clamped to the fleet's bounds. */
  function Target(rps: real, cfg: Config): int {
    var lam := Load(rps);
    var sloN := MinReplicas(lam, cfg.serviceRate, cfg.targetWaitMs / 1000.0, cfg.maxReplicas);
    var utilN := UtilReplicas(lam, cfg.serviceRate, cfg.targetUtilization);
    Max(cfg.minReplicas, Min(cfg.maxReplicas, Max(sloN, utilN)))
  }

  predicate Cooling(now: real, last: Last, cooldown: real) {
    last.At? && now - last.s < cooldown
  }

  function Plan(sig: Signal, cfg: Config): Decision {
    var mu := cfg.serviceRate;
    var lam := Load(sig.offeredRps);
    var cur := sig.current;
    var sloN := MinReplicas(lam, mu, cfg.targetWaitMs / 1000.0, cfg.maxReplicas);
    var utilN := UtilReplicas(lam, mu, cfg.targetUtilization);
    var target := Max(cfg.minReplicas, Min(cfg.maxReplicas, Max(sloN, utilN)));
    var (direction, desired, blocked) :=
      if target > cur then
        if Cooling(sig.now, sig.lastUp, cfg.upCooldown) then (Hold, cur, true)
        else (Up, Min(target, cur + cfg.maxStep), false)
      else if target <= cur - cfg.deadband then
        if Cooling(sig.now, sig.lastDown, cfg.downCooldown) then (Hold, cur, true)
        else (Down, Max(target, cur - cfg.maxStep), false)
      else (Hold, cur, false);
    Decision(cur, desired, direction, sloN, utilN, ExpectedWait(desired, lam, mu), blocked)
  }

  // ------------------------------------------------------------------ the target

  /** Raising the target for utilization or for the minimum never breaks a wait objective that can be met
      below the maximum: the target, and every count above it, meets it too. */
  lemma TargetMeetsObjective(rps: real, cfg: Config, n: int)
    requires rps > 0.0 && cfg.serviceRate > 0.0 && n >= Target(rps, cfg)
    requires MinReplicas(rps, cfg.serviceRate, cfg.targetWaitMs / 1000.0, cfg.maxReplicas) < cfg.maxReplicas
    ensures Within(ExpectedWait(n, rps, cfg.serviceRate), cfg.targetWaitMs / 1000.0)
  {
    hide MinReplicas, UtilReplicas, ExpectedWait;
    SizingCorrect(rps, cfg.serviceRate, cfg.targetWaitMs / 1000.0, cfg.maxReplicas);
  }

  /** If the bound allows it, the target keeps average utilization at or below the configured one. */
  lemma TargetKeepsHeadroom(rps: real, cfg: Config, n: int)
    requires rps > 0.0 && cfg.serviceRate > 0.0 && cfg.targetUtilization > 0.0 && n >= Target(rps, cfg)
    requires UtilReplicas(rps, cfg.serviceRate, cfg.targetUtilization) <= cfg.maxReplicas
    ensures rps / cfg.serviceRate <= n as real * cfg.targetUtilization
  {
    hide MinReplicas;
    var a, u := rps / cfg.serviceRate, cfg.targetUtilization;
    var q := a / u;
    assert q <= n as real;
    DivMul(a, u);
    MulMono(q, n as real, u);
  }

  // ------------------------------------------------------------------ the closed loop

  /** One observation of the controller under constant load: the clock and the last scaling times are
      whatever the environment says. */
  datatype Tick = Tick(now: real, lastUp: Last, lastDown: Last)

  function Decide(rps: real, cfg: Config, cur: int, t: Tick): Decision {
    Plan(Signal(rps, cur, t.now, t.lastUp, t.lastDown), cfg)
  }

  /** Feed each decision back as the next current count. */
  function After(rps: real, cfg: Config, cur: int, ticks: seq<Tick>): int {
    if ticks == [] then cur else
      var n := After(rps, cfg, cur, ticks[..|ticks| - 1]);
      Decide(rps, cfg, n, ticks[|ticks| - 1]).desired
  }

  /** The decision taken at tick `i` of the run. */
  function DecisionAt(rps: real, cfg: Config, cur: int, ticks: seq<Tick>, i: nat): Decision
    requires i < |ticks|
  {
    Decide(rps, cfg, After(rps, cfg, cur, ticks[..i]), ticks[i])
  }

  ghost predicate Sane(cfg: Config) {
    cfg.maxStep >= 1 && cfg.deadband >= 1
  }

  /** One step moves toward the target, by at most the step limit, and never past it. */
  lemma StepTowardTarget(rps: real, cfg: Config, cur: int, t: Tick)
    requires Sane(cfg)
    ensures var d := Decide(rps, cfg, cur, t); var target := Target(rps, cfg);
      && (d.direction == Up ==> cur < d.desired <= target && d.desired <= cur + cfg.maxStep)
      && (d.direction == Down ==> target <= d.desired < cur && d.desired >= cur - cfg.maxStep)
      && (d.direction == Hold ==> d.desired == cur)
      && (cur <= target ==> d.direction != Down && d.desired <= target)
      && (cur >= target ==> d.direction != Up && d.desired >= target)
  {
    hide MinReplicas, UtilReplicas, ExpectedWait;
  }

  lemma {:induction false} StaysOnSide(rps: real, cfg: Config, cur: int, ticks: seq<Tick>)
    requires Sane(cfg)
    ensures var n := After(rps, cfg, cur, ticks); var target := Target(rps, cfg);
      && (cur <= target ==> cur <= n <= target)
      && (cur >= target ==> target <= n <= cur)
  {
    hide Decide, Target;
    if ticks != [] {
      StaysOnSide(rps, cfg, cur, ticks[..|ticks| - 1]);
      StepTowardTarget(rps, cfg, After(rps, cfg, cur, ticks[..|ticks| - 1]), ticks[|ticks| - 1]);
    }
  }

  /** Under constant load no run scales both up and down, whatever the cooldowns do. */
  lemma NoFlapping(rps: real, cfg: Config, cur: int, ticks: seq<Tick>, i: nat, j: nat)
    requires Sane(cfg) && i < |ticks| && j < |ticks|
    ensures DecisionAt(rps, cfg, cur, ticks, i).direction == Up ==>
      DecisionAt(rps, cfg, cur, ticks, j).direction != Down
  {
    hide Decide, Target;
    StaysOnSide(rps, cfg, cur, ticks[..i]);
    StaysOnSide(rps, cfg, cur, ticks[..j]);
    StepTowardTarget(rps, cfg, After(rps, cfg, cur, ticks[..i]), ticks[i]);
    StepTowardTarget(rps, cfg, After(rps, cfg, cur, ticks[..j]), ticks[j]);
  }

  /** No decision of the run is held back by a cooldown. */
  ghost predicate Unblocked(cfg: Config, ticks: seq<Tick>) {
    forall i :: 0 <= i < |ticks| ==>
      && !Cooling(ticks[i].now, ticks[i].lastUp, cfg.upCooldown)
      && !Cooling(ticks[i].now, ticks[i].lastDown, cfg.downCooldown)
  }

  /** At the target, or above it by less than the deadband. */
  predicate Settled(rps: real, cfg: Config, n: int) {
    0 <= n - Target(rps, cfg) < cfg.deadband
  }

  lemma UnblockedStep(rps: real, cfg: Config, cur: int, t: Tick)
    requires Sane(cfg)
    requires !Cooling(t.now, t.lastUp, cfg.upCooldown) && !Cooling(t.now, t.lastDown, cfg.downCooldown)
    ensures var n := Decide(rps, cfg, cur, t).desired; var target := Target(rps, cfg);
      && (cur <= target ==> n == Min(target, cur + cfg.maxStep))
      && (cur > target ==> n == if Settled(rps, cfg, cur) then cur else Max(target, cur - cfg.maxStep))
  {
    hide MinReplicas, UtilReplicas, ExpectedWait;
  }

  /** With the cooldowns elapsed, `k` ticks cover a distance of up to `k` steps: the loop is then settled,
      exactly at the target when it came from below, and it stays there. */
  lemma {:induction false} Settles(rps: real, cfg: Config, cur: int, ticks: seq<Tick>)
    requires Sane(cfg) && Unblocked(cfg, ticks)
    ensures var n := After(rps, cfg, cur, ticks); var target := Target(rps, cfg);
      && (cur <= target ==> n == Min(target, cur + |ticks| * cfg.maxStep))
      && (cur > target ==> Settled(rps, cfg, n) || n == cur - |ticks| * cfg.maxStep)
      && (cur <= target && |ticks| * cfg.maxStep >= target - cur ==> n == target)
      && (cur > target && |ticks| * cfg.maxStep >= cur - target ==> Settled(rps, cfg, n))
  {
    hide Decide, Target;
    if ticks != [] {
      var k := |ticks| - 1;
      Settles(rps, cfg, cur, ticks[..k]);
      StaysOnSide(rps, cfg, cur, ticks[..k]);
      UnblockedStep(rps, cfg, After(rps, cfg, cur, ticks[..k]), ticks[k]);
      assert (k + 1) * cfg.maxStep == k * cfg.maxStep + cfg.maxStep;
    }
  }

  /** Ticks enough to cover a distance: the distance divided by the step, rounded up. */
  function TicksFor(distance: nat, step: int): (k: nat)
    requires step >= 1
    ensures k * step >= distance && (k == 0 || (k - 1) * step < distance)
  {
    var q := distance / step;
    assert q * step <= distance < q * step + step;
    if distance % step == 0 then (assert q * step == distance; q) else q + 1
  }

  function Distance(a: int, b: int): nat {
    if a < b then b - a else a - b
  }

  lemma SettlesInTime(rps: real, cfg: Config, cur: int, ticks: seq<Tick>)
    requires Sane(cfg) && Unblocked(cfg, ticks)
    requires |ticks| >= TicksFor(Distance(cur, Target(rps, cfg)), cfg.maxStep)
    ensures var n := After(rps, cfg, cur, ticks);
      Settled(rps, cfg, n) && (cur <= Target(rps, cfg) ==> n == Target(rps, cfg))
  {
    hide Decide, Target;
    Settles(rps, cfg, cur, ticks);
    var d := Distance(cur, Target(rps, cfg));
    IntMulMono(TicksFor(d, cfg.maxStep), |ticks|, cfg.maxStep);
  }

  // ------------------------------------------------------------------ the decision, case by case

  /** Clamping: the target lies within the bounds of the fleet; contradictory bounds give the lower one. */
  lemma TargetWithinBounds(rps: real, cfg: Config)
    ensures cfg.minReplicas <= cfg.maxReplicas ==> cfg.minReplicas <= Target(rps, cfg) <= cfg.maxReplicas
    ensures cfg.minReplicas > cfg.maxReplicas ==> Target(rps, cfg) == cfg.minReplicas
    ensures rps <= 0.0 || cfg.serviceRate <= 0.0 ==> Target(rps, cfg) == Max(cfg.minReplicas, Min(cfg.maxReplicas, 0))
    ensures rps > 0.0 && cfg.serviceRate > 0.0 && cfg.targetUtilization <= 0.0 ==>
      var sloN := MinReplicas(rps, cfg.serviceRate, cfg.targetWaitMs / 1000.0, cfg.maxReplicas);
      Target(rps, cfg) == Max(cfg.minReplicas, Min(cfg.maxReplicas, Max(sloN, 1)))
  {
    hide SearchFrom, FirstStable;
  }

  /** The target is the least count above the minimum that meets both the wait objective and the utilization. */
  lemma TargetIsLeast(rps: real, cfg: Config, n: int)
    requires rps > 0.0 && cfg.serviceRate > 0.0 && cfg.targetUtilization > 0.0
    requires cfg.minReplicas <= n < Target(rps, cfg)
    ensures || !Within(ExpectedWait(n, rps, cfg.serviceRate), cfg.targetWaitMs / 1000.0)
            || n as real * cfg.targetUtilization < rps / cfg.serviceRate
  {
    hide MinReplicas, ExpectedWait;
    SizingCorrect(rps, cfg.serviceRate, cfg.targetWaitMs / 1000.0, cfg.maxReplicas);
    var a, u := rps / cfg.serviceRate, cfg.targetUtilization;
    if n < UtilReplicas(rps, cfg.serviceRate, u) {
      var q := a / u;
      DivMul(a, u);
      assert n as real < q;
      MulMonoStrict(n as real, q, u);
    }
  }

  /** What a decision reports: the least count for the wait objective, if there is one below the maximum ... */
  lemma ObjectiveIs(sig: Signal, cfg: Config)
    requires sig.offeredRps > 0.0 && cfg.serviceRate > 0.0
    ensures var d, slo := Plan(sig, cfg), cfg.targetWaitMs / 1000.0;
      && d.current == sig.current && d.sloReplicas <= cfg.maxReplicas
      && (forall k :: k < d.sloReplicas ==> !Within(ExpectedWait(k, sig.offeredRps, cfg.serviceRate), slo))
      && (d.sloReplicas < cfg.maxReplicas ==>
            Within(ExpectedWait(d.sloReplicas, sig.offeredRps, cfg.serviceRate), slo))
  {
    SizingCorrect(sig.offeredRps, cfg.serviceRate, cfg.targetWaitMs / 1000.0, cfg.maxReplicas);
    PlanReports(sig, cfg);
    hide *;
  }

  /** `n` is the least count whose capacity at utilization `u` covers the offered load `a`. */
  ghost predicate JustCovers(n: int, u: real, a: real) {
    (n - 1) as real * u < a <= n as real * u
  }

  /** ... and the least count for the utilization. */
  lemma UtilizationIs(sig: Signal, cfg: Config)
    requires sig.offeredRps > 0.0 && cfg.serviceRate > 0.0 && cfg.targetUtilization > 0.0
    ensures JustCovers(Plan(sig, cfg).utilReplicas, cfg.targetUtilization, sig.offeredRps / cfg.serviceRate)
  {
    PlanReports(sig, cfg);
    hide *;
    UtilIsLeast(sig.offeredRps, cfg.serviceRate, cfg.targetUtilization, Plan(sig, cfg).utilReplicas);
  }

  lemma PlanReports(sig: Signal, cfg: Config)
    requires sig.offeredRps > 0.0
    ensures var d := Plan(sig, cfg);
      && d.current == sig.current
      && d.sloReplicas == MinReplicas(sig.offeredRps, cfg.serviceRate, cfg.targetWaitMs / 1000.0, cfg.maxReplicas)
      && d.utilReplicas == UtilReplicas(sig.offeredRps, cfg.serviceRate, cfg.targetUtilization)
  {
    hide MinReplicas, UtilReplicas, ExpectedWait;
  }

  lemma UtilIsLeast(lam: real, mu: real, u: real, n: int)
    requires lam > 0.0 && mu > 0.0 && u > 0.0 && n == UtilReplicas(lam, mu, u)
    ensures JustCovers(n, u, lam / mu)
  {
    var a := lam / mu;
    var q := a / u;
    CeilIs(q);
    DivMul(a, u);
    MulMonoStrict((n - 1) as real, q, u);
    MulMono(q, n as real, u);
  }

  lemma CeilIs(x: real)
    ensures (Ceil(x) - 1) as real < x <= Ceil(x) as real
  {
  }

  /** Cooldowns: a change of size happens if and only if it is wanted and enough time has passed since the last
      change in the same direction; otherwise the count stays, and the decision says whether a cooldown held
      it. */
  lemma CooldownsHold(sig: Signal, cfg: Config)
    ensures var d := Plan(sig, cfg); var target := Target(sig.offeredRps, cfg);
      var upWaits := sig.lastUp.At? && sig.now - sig.lastUp.s < cfg.upCooldown;
      var downWaits := sig.lastDown.At? && sig.now - sig.lastDown.s < cfg.downCooldown;
      var wantsUp, wantsDown := target > sig.current, target <= sig.current && target <= sig.current - cfg.deadband;
      && (d.direction == Up <==> wantsUp && !upWaits)
      && (d.direction == Down <==> wantsDown && !downWaits)
      && (d.blocked <==> (wantsUp && upWaits) || (wantsDown && downWaits))
      && (d.direction == Up ==> d.desired == Min(target, sig.current + cfg.maxStep))
      && (d.direction == Down ==> d.desired == Max(target, sig.current - cfg.maxStep))
      && (d.direction == Hold ==> d.desired == sig.current)
      && d.estWait == ExpectedWait(d.desired, Load(sig.offeredRps), cfg.serviceRate)
  {
    hide MinReplicas, UtilReplicas, ExpectedWait;
  }
}
