/** Erlang-C sizing over the reals (gateway/autoscale/queueing.py). */
module Queueing {
  import opened Basics

  // ------------------------------------------------------------------ real arithmetic

  lemma DivBetween(x: real, y: real, lo: real, hi: real)
    requires 0.0 < y && lo * y <= x <= hi * y
    ensures lo <= x / y <= hi
  {
    var q := x / y;
    DivMul(x, y);
    if q < lo { MulMonoStrict(q, lo, y); assert false; }
    if q > hi { MulMonoStrict(hi, q, y); assert false; }
  }

  lemma DivPositive(x: real, y: real)
    requires 0.0 < x && 0.0 < y
    ensures 0.0 < x / y
  {
  }

  /** A smaller positive numerator over a larger denominator. */
  lemma DivStrict(x: real, y: real, x': real, y': real)
    requires 0.0 < x' <= x && 0.0 < y < y'
    ensures x' / y' < x / y
  {
    var q, q' := x / y, x' / y';
    DivMul(x, y);
    DivMul(x', y');
    DivPositive(x, y);
    if q <= q' {
      MulMono(q, q', y);
      MulMonoStrict(y, y', q');
      assert false;
    }
  }

  // ------------------------------------------------------------------ the recursion

  /** One step of the Erlang-B recursion. */
  function BStep(k: real, a: real, b: real): (r: real)
    requires k > 0.0 && a >= 0.0 && b >= 0.0
    ensures 0.0 <= r <= 1.0
  {
    var p := a * b;
    MulMono(0.0, b, a);
    DivBetween(p, k + p, 0.0, 1.0);
    p / (k + p)
  }

  /** Erlang-B by the stable recursion. */
  function B(k: nat, a: real): (b: real)
    requires a >= 0.0
    ensures 0.0 <= b <= 1.0
  {
    if k == 0 then 1.0 else BStep(k as real, a, B(k - 1, a))
  }

  function IStep(k: real, a: real, i: real): (r: real)
    requires k > 0.0 && a > 0.0 && i >= 1.0
    ensures r >= 1.0
  {
    var x := k * i;
    MulMono(0.0, i, k);
    DivBetween(x, a, 0.0, x / a);
    1.0 + x / a
  }

  lemma IStepForm(k: real, a: real, i: real)
    requires k > 0.0 && a > 0.0 && i >= 1.0
    ensures IStep(k, a, i) * a == a + k * i
  {
    var x := k * i;
    DivMul(x, a);
    var q := x / a;
    assert (1.0 + q) * a == a + q * a;
  }

  /** The reciprocal of Erlang-B, which satisfies a linear recursion. */
  function I(k: nat, a: real): (r: real)
    requires a > 0.0
    ensures r >= 1.0
  {
    if k == 0 then 1.0 else IStep(k as real, a, I(k - 1, a))
  }

  lemma {:induction false} BIsReciprocal(k: nat, a: real)
    requires a > 0.0
    ensures B(k, a) * I(k, a) == 1.0 && B(k, a) > 0.0
  {
    hide BStep, IStep;
    if k > 0 {
      BIsReciprocal(k - 1, a);
      ReciprocalStep(k as real, a, B(k - 1, a), I(k - 1, a));
    }
  }

  lemma ReciprocalStep(k: real, a: real, b: real, i: real)
    requires a > 0.0 && k > 0.0 && b > 0.0 && i >= 1.0 && b * i == 1.0
    ensures BStep(k, a, b) * IStep(k, a, i) == 1.0 && BStep(k, a, b) > 0.0
  {
    var p := a * b;
    MulMonoStrict(0.0, b, a);
    var b', i' := BStep(k, a, b), IStep(k, a, i);
    DivPositive(p, k + p);
    DivMul(p, k + p);
    IStepForm(k, a, i);
    ReciprocalReal(k, a, b, i, b', i');
  }

  lemma ReciprocalReal(k: real, a: real, b: real, i: real, b': real, i': real)
    requires k > 0.0 && a > 0.0 && b > 0.0 && b * i == 1.0 && a * b > 0.0
    requires b' * (k + a * b) == a * b && i' * a == a + k * i
    ensures b' * i' == 1.0
  {
    var p := a * b;
    assert i' * p == (i' * a) * b == (a + k * i) * b == a * b + k * (i * b) == p + k;
    assert (b' * i') * p == b' * (i' * p) == b' * (k + p) == 1.0 * p;
    CancelRight(b' * i', 1.0, p);
  }

  lemma CancelRight(x: real, y: real, z: real)
    requires z != 0.0 && x * z == y * z
    ensures x == y
  {
    assert (x - y) * z == 0.0;
  }

  /** What one more server adds to the reciprocal. */
  function D(c: nat, a: real): real
    requires a > 0.0 && c > 0
  {
    I(c, a) - I(c - 1, a)
  }

  lemma DForm(c: nat, a: real)
    requires a > 0.0 && c > 0
    ensures D(c, a) * a == a + (c as real - a) * I(c - 1, a)
  {
    hide IStep;
    IStepForm(c as real, a, I(c - 1, a));
    DFormReal(c as real, a, I(c - 1, a), I(c, a));
  }

  lemma DFormReal(c: real, a: real, i: real, i': real)
    requires i' * a == a + c * i
    ensures (i' - i) * a == a + (c - a) * i
  {
    assert (i' - i) * a == i' * a - i * a;
  }

  lemma DAtLeastOne(c: nat, a: real)
    requires 0.0 < a <= c as real
    ensures D(c, a) >= 1.0
  {
    hide D, I;
    DForm(c, a);
    AtLeastOneReal(c as real, a, I(c - 1, a), D(c, a));
  }

  lemma AtLeastOneReal(c: real, a: real, i: real, d: real)
    requires 0.0 < a <= c && i >= 1.0 && d * a == a + (c - a) * i
    ensures d >= 1.0
  {
    MulMono(0.0, c - a, i);
    if d < 1.0 { MulMonoStrict(d, 1.0, a); assert false; }
  }

  /** Past the load, each further server adds more than the one before. */
  lemma DGrows(c: nat, a: real)
    requires 0.0 < a < c as real
    ensures D(c, a) < D(c + 1, a)
  {
    hide I;
    DForm(c, a);
    DForm(c + 1, a);
    DAtLeastOne(c, a);
    GrowsReal(c as real, a, I(c - 1, a), I(c, a), D(c, a), D(c + 1, a));
  }

  lemma GrowsReal(c: real, a: real, i: real, j: real, d: real, d': real)
    requires 0.0 < a < c && 1.0 <= i < j
    requires d * a == a + (c - a) * i && d' * a == a + (c + 1.0 - a) * j
    ensures d < d'
  {
    MulMonoStrict(c - a, c + 1.0 - a, j);
    MulMonoStrict(i, j, c - a);
    if d' <= d { MulMono(d', d, a); assert false; }
  }

  // ------------------------------------------------------------------ Erlang C and the wait

  function ErlangC(c: int, a: real): real {
    if a <= 0.0 then 0.0
    else if c as real <= a then 1.0
    else
      var b := B(c, a);
      var rho := a / c as real;
      Denominator(c as real, a, b);
      b / (1.0 - rho * (1.0 - b))
  }

  lemma Denominator(c: real, a: real, b: real)
    requires 0.0 < a < c && 0.0 <= b <= 1.0
    ensures 1.0 - a / c * (1.0 - b) > 0.0
  {
    var rho := a / c;
    DivPositive(a, c);
    DivMul(a, c);
    if rho >= 1.0 { MulMono(1.0, rho, c); assert false; }
    MulMono(1.0 - b, 1.0, rho);
  }

  /** In the stable range Erlang-C is the reciprocal of what one more server adds. */
  lemma CIsReciprocal(c: int, a: real)
    requires 0.0 < a < c as real
    ensures ErlangC(c, a) * D(c, a) == 1.0
  {
    hide BStep, IStep;
    BIsReciprocal(c, a);
    IStepForm(c as real, a, I(c - 1, a));
    CReal(c as real, a, B(c, a), I(c, a), I(c - 1, a));
  }

  lemma CReal(c: real, a: real, b: real, i: real, j: real)
    requires 0.0 < a < c && 0.0 < b <= 1.0 && b * i == 1.0 && i * a == a + c * j
    ensures 1.0 - a / c * (1.0 - b) > 0.0
    ensures b / (1.0 - a / c * (1.0 - b)) * (i - j) == 1.0
  {
    var rho := a / c;
    DivMul(a, c);
    Denominator(c, a, b);
    var den := 1.0 - rho * (1.0 - b);
    RhoReal(c, a, i, j, rho);
    assert (1.0 - b) * i == i - b * i == i - 1.0;
    assert den * i == i - rho * ((1.0 - b) * i) == i - rho * (i - 1.0) == i - j;
    DivMul(b, den);
    var q := b / den;
    assert q * (i - j) == q * (den * i) == (q * den) * i == b * i;
  }

  lemma RhoReal(c: real, a: real, i: real, j: real, rho: real)
    requires c > 0.0 && rho * c == a && i * a == a + c * j
    ensures rho * (i - 1.0) == j
  {
    assert (rho * (i - 1.0)) * c == (rho * c) * (i - 1.0) == a * (i - 1.0) == i * a - a == c * j == j * c;
    CancelRight(rho * (i - 1.0), j, c);
  }

  /** The waiting probability is a probability and falls strictly with every server added. */
  lemma ErlangCRange(c: int, a: real)
    requires 0.0 < a < c as real
    ensures 0.0 < ErlangC(c, a) <= 1.0
    ensures ErlangC(c + 1, a) < ErlangC(c, a)
  {
    hide ErlangC, D;
    CIsReciprocal(c, a);
    CIsReciprocal(c + 1, a);
    DAtLeastOne(c, a);
    DGrows(c, a);
    ReciprocalOrder(ErlangC(c, a), D(c, a), ErlangC(c + 1, a), D(c + 1, a));
  }

  lemma ReciprocalOrder(x: real, d: real, y: real, e: real)
    requires 1.0 <= d < e && x * d == 1.0 && y * e == 1.0
    ensures 0.0 < y < x <= 1.0
  {
    if x <= 0.0 { MulMono(x, 0.0, d); assert false; }
    if y <= 0.0 { MulMono(y, 0.0, e); assert false; }
    if x > 1.0 { MulMonoStrict(1.0, x, d); assert false; }
    if y >= x { MulMono(x, y, d); MulMonoStrict(d, e, y); assert false; }
  }

  datatype Wait = Infinite | Finite(s: real)

  /** Service capacity beyond the load. */
  function Spare(c: int, lam: real, mu: real): real {
    c as real * mu - lam
  }

  function ExpectedWait(c: int, lam: real, mu: real): Wait {
    if mu <= 0.0 || lam <= 0.0 then Finite(0.0)
    else
      var a := lam / mu;
      if c as real <= a then Infinite
      else
        assert Spare(c, lam, mu) != 0.0 by { Headroom(c, lam, mu); }
        Finite(ErlangC(c, a) / Spare(c, lam, mu))
  }

  lemma Headroom(c: int, lam: real, mu: real)
    requires mu > 0.0 && lam > 0.0 && c as real > lam / mu
    ensures 0.0 < Spare(c, lam, mu) < Spare(c + 1, lam, mu)
  {
    DivMul(lam, mu);
    MulMonoStrict(lam / mu, c as real, mu);
    assert (c + 1) as real * mu == c as real * mu + mu;
  }

  predicate Within(w: Wait, slo: real) {
    w.Finite? && w.s <= slo
  }

  /** In the stable range the expected wait falls strictly with every server added. */
  lemma WaitFalls(c: int, lam: real, mu: real)
    requires mu > 0.0 && lam > 0.0 && c as real > lam / mu
    ensures var w, w' := ExpectedWait(c, lam, mu), ExpectedWait(c + 1, lam, mu);
      w.Finite? && w'.Finite? && 0.0 < w'.s < w.s
  {
    hide ErlangC, Spare;
    var a := lam / mu;
    DivPositive(lam, mu);
    Headroom(c, lam, mu);
    ErlangCRange(c, a);
    ErlangCRange(c + 1, a);
    DivStrict(ErlangC(c, a), Spare(c, lam, mu), ErlangC(c + 1, a), Spare(c + 1, lam, mu));
    DivPositive(ErlangC(c + 1, a), Spare(c + 1, lam, mu));
  }

  lemma {:induction false} MoreMeets(c: int, d: int, lam: real, mu: real, slo: real)
    requires mu > 0.0 && lam > 0.0 && c <= d && Within(ExpectedWait(c, lam, mu), slo)
    ensures Within(ExpectedWait(d, lam, mu), slo)
    decreases d - c
  {
    if c < d {
      WaitFalls(c, lam, mu);
      MoreMeets(c + 1, d, lam, mu, slo);
    }
  }

  // ------------------------------------------------------------------ the loops

  /** One step for any load; for a negative one it may divide by zero. */
  function BNext(k: real, a: real, b: real): Option<real> {
    var p := a * b;
    if k + p == 0.0 then None else Some(p / (k + p))
  }

  function BOf(k: nat, a: real): Option<real> {
    if k == 0 then Some(1.0) else
      var b := BOf(k - 1, a);
      if b.None? then None else BNext(k as real, a, b.value)
  }

  lemma BNextLoad(k: real, a: real, b: real)
    requires k > 0.0 && a >= 0.0 && b >= 0.0
    ensures BNext(k, a, b) == Some(BStep(k, a, b))
  {
    MulMono(0.0, b, a);
  }

  /** For a load that is not negative nothing is divided by zero and this is Erlang-B. */
  lemma {:induction false} BOfLoad(k: nat, a: real)
    requires a >= 0.0
    ensures BOf(k, a) == Some(B(k, a))
  {
    hide BStep, BNext;
    if k > 0 {
      BOfLoad(k - 1, a);
      BNextLoad(k as real, a, B(k - 1, a));
    }
  }

  function Pow(a: real, k: nat): real {
    if k == 0 then 1.0 else a * Pow(a, k - 1)
  }

  function TermsNext(k: real, t: real, p: real): real {
    k * t + p
  }

  /** The denominator of Erlang's formula times `k` factorial: the sum of `k!/j! * a^j` for `j` up to `k`. */
  function Terms(k: nat, a: real): real {
    if k == 0 then 1.0 else TermsNext(k as real, Terms(k - 1, a), Pow(a, k))
  }

  /** `b` is `p / t`. */
  ghost predicate Ratio(b: real, t: real, p: real) {
    t != 0.0 && b * t == p
  }

  /** For every load, positive or not, the recursion computes Erlang's closed formula, and it divides by
      zero if and only if a denominator of that formula vanishes on the way. */
  lemma {:induction false} ErlangBFormula(k: nat, a: real)
    ensures BOf(k, a).Some? <==> forall j :: 1 <= j <= k ==> Terms(j, a) != 0.0
    ensures BOf(k, a).Some? ==> Ratio(BOf(k, a).value, Terms(k, a), Pow(a, k))
  {
    hide BNext, TermsNext, Ratio;
    if k == 0 {
      RatioOne();
    } else {
      ErlangBFormula(k - 1, a);
      var b := BOf(k - 1, a);
      assert Terms(k, a) == TermsNext(k as real, Terms(k - 1, a), Pow(a, k));
      if b.Some? {
        FormulaStep(k as real, a, b.value, Terms(k - 1, a), Pow(a, k - 1), Pow(a, k));
      }
    }
  }

  lemma RatioOne()
    ensures Ratio(1.0, 1.0, 1.0)
  {
  }

  lemma FormulaStep(k: real, a: real, b: real, t: real, p: real, p': real)
    requires Ratio(b, t, p) && p' == a * p
    ensures BNext(k, a, b).None? <==> TermsNext(k, t, p') == 0.0
    ensures BNext(k, a, b).Some? ==> Ratio(BNext(k, a, b).value, TermsNext(k, t, p'), p')
  {
    var c := a * b;
    var d := k + c;
    assert c * t == a * (b * t) == p';
    assert d * t == k * t + c * t;
    if d != 0.0 {
      var q := c / d;
      DivMul(c, d);
      assert q * (d * t) == (q * d) * t;
      if d * t == 0.0 { CancelRight(d, 0.0, t); }
    }
  }

  /** `None` is a division by zero. */
  method ComputeErlangB(c: int, a: real) returns (r: Option<real>)
    ensures r == if c <= 0 then Some(1.0) else BOf(c, a)
    ensures a >= 0.0 ==> r == Some(if c <= 0 then 1.0 else B(c, a))
  {
    hide B, BNext;
    if a >= 0.0 && c > 0 { BOfLoad(c, a); }
    if c <= 0 {
      return Some(1.0);
    }
    var b := 1.0;
    for k := 1 to c + 1
      invariant BOf(k - 1, a) == Some(b)
    {
      var next := BNext(k as real, a, b);
      if next.None? {
        Stuck(k, c, a);
        return None;
      }
      b := next.value;
    }
    r := Some(b);
  }

  lemma {:induction false} Stuck(k: nat, c: nat, a: real)
    requires k <= c && BOf(k, a).None?
    ensures BOf(c, a).None?
    decreases c
  {
    if k < c { Stuck(k, c - 1, a); }
  }

  /** A load on which it does, for every number of servers. */
  lemma UnitLoadOff(c: nat)
    requires c >= 1
    ensures BOf(c, -1.0) == None
  {
    assert BNext(1.0, -1.0, 1.0) == None;
    assert BOf(0, -1.0) == Some(1.0);
    Stuck(1, c, -1.0);
  }

  // ------------------------------------------------------------------ closed forms

  lemma {:induction false} PowPositive(a: real, k: nat)
    requires a > 0.0
    ensures Pow(a, k) > 0.0
  {
    if k > 0 {
      PowPositive(a, k - 1);
      MulMonoStrict(0.0, Pow(a, k - 1), a);
    }
  }

  /** The reciprocal recursion is the quotient of the terms and the power. */
  lemma {:induction false} IFormula(k: nat, a: real)
    requires a > 0.0
    ensures I(k, a) * Pow(a, k) == Terms(k, a)
  {
    hide IStep, TermsNext;
    if k == 0 {
      assert I(0, a) == 1.0 && Pow(a, 0) == 1.0 && Terms(0, a) == 1.0;
    } else {
      IFormula(k - 1, a);
      IStepForm(k as real, a, I(k - 1, a));
      assert Pow(a, k) == a * Pow(a, k - 1);
      assert Terms(k, a) == TermsNext(k as real, Terms(k - 1, a), Pow(a, k));
      hide I, Pow, Terms;
      IFormulaReal(k as real, a, I(k - 1, a), I(k, a), Pow(a, k - 1), Pow(a, k), Terms(k - 1, a));
    }
  }

  lemma IFormulaReal(k: real, a: real, i: real, i': real, p: real, p': real, t: real)
    requires i' * a == a + k * i && p' == a * p && i * p == t
    ensures i' * p' == TermsNext(k, t, p')
  {
    assert i' * p' == (i' * a) * p == (a + k * i) * p == a * p + k * (i * p);
  }

  /** Erlang-C in closed form: a^c over (c - a) times the sum of (c-1)!/j! * a^j for j below c, plus a^c. */
  lemma ErlangCFormula(c: int, a: real)
    requires 0.0 < a < c as real
    ensures ErlangC(c, a) * ((c as real - a) * Terms(c - 1, a) + Pow(a, c)) == Pow(a, c)
  {
    hide ErlangC, Terms, I;
    CIsReciprocal(c, a);
    DForm(c, a);
    IFormula(c - 1, a);
    CFormulaReal(c as real, a, ErlangC(c, a), D(c, a), I(c - 1, a), Pow(a, c - 1), Terms(c - 1, a), Pow(a, c));
  }

  lemma CFormulaReal(c: real, a: real, x: real, d: real, i: real, p: real, t: real, p': real)
    requires x * d == 1.0 && d * a == a + (c - a) * i && i * p == t && p' == a * p
    ensures x * ((c - a) * t + p') == p'
  {
    assert d * p' == (d * a) * p == (a + (c - a) * i) * p == a * p + (c - a) * (i * p) == p' + (c - a) * t;
    assert x * (d * p') == (x * d) * p' == p';
  }

  /** The expected wait in closed form, for every load: none without load, infinite from the stability limit
      on, and otherwise Erlang-C over the spare capacity. */
  lemma WaitFormula(c: int, lam: real, mu: real)
    ensures lam <= 0.0 || mu <= 0.0 ==> ExpectedWait(c, lam, mu) == Finite(0.0)
    ensures lam > 0.0 && mu > 0.0 ==> (ExpectedWait(c, lam, mu).Infinite? <==> c as real <= lam / mu)
    ensures lam > 0.0 && mu > 0.0 && c as real > lam / mu ==>
      var a, w := lam / mu, ExpectedWait(c, lam, mu).s;
      c > 0 && w * (c as real * mu - lam) * ((c as real - a) * Terms(c - 1, a) + Pow(a, c)) == Pow(a, c)
  {
    hide ErlangC, Terms, Pow;
    if lam > 0.0 && mu > 0.0 && c as real > lam / mu {
      var a := lam / mu;
      DivPositive(lam, mu);
      Headroom(c, lam, mu);
      ErlangCFormula(c, a);
      DivMul(ErlangC(c, a), Spare(c, lam, mu));
      assert ExpectedWait(c, lam, mu).s * (c as real * mu - lam) == ErlangC(c, a);
    }
  }

  /** One server: the wait of an M/M/1 queue, lam / (mu * (mu - lam)). */
  lemma SingleServer(lam: real, mu: real)
    requires 0.0 < lam < mu
    ensures ExpectedWait(1, lam, mu).Finite? && ExpectedWait(1, lam, mu).s * (mu * (mu - lam)) == lam
  {
    var a := lam / mu;
    DivMul(lam, mu);
    assert a < 1.0 by { if a >= 1.0 { MulMono(1.0, a, mu); } }
    WaitFormula(1, lam, mu);
    assert Pow(a, 0) == 1.0;
    assert Pow(a, 1) == a * Pow(a, 0) && Terms(0, a) == 1.0;
    SingleReal(lam, mu, a, ExpectedWait(1, lam, mu).s);
  }

  lemma SingleReal(lam: real, mu: real, a: real, w: real)
    requires a * mu == lam && w * (1.0 * mu - lam) * ((1.0 - a) * 1.0 + a * 1.0) == a * 1.0
    ensures w * (mu * (mu - lam)) == lam
  {
    assert (1.0 - a) * 1.0 + a * 1.0 == 1.0;
    var d := mu - lam;
    assert w * d == a;
    assert w * (mu * d) == (w * d) * mu;
  }

  lemma NextPow(k: nat, a: real, p: real)
    requires Pow(a, k) == p
    ensures Pow(a, k + 1) == a * p
  {
  }

  lemma NextTerms(k: nat, a: real, t: real, p: real)
    requires Terms(k, a) == t && Pow(a, k + 1) == p
    ensures Terms(k + 1, a) == TermsNext((k + 1) as real, t, p)
  {
    hide TermsNext, Pow;
  }

  /** A worked sizing: 20 requests a second, 5 a second per replica, at most 0.1 s of waiting, at most 20
      replicas.  Five replicas are stable but wait 0.11 s; six wait 0.03 s. */
  lemma WorkedSizing()
    ensures MinReplicas(20.0, 5.0, 0.1, 20) == 6
  {
    assert 20.0 / 5.0 == 4.0;
    FourPowers();
    FourTerms();
    hide Pow, Terms, ExpectedWait;
    WaitFormula(5, 20.0, 5.0);
    WaitFormula(6, 20.0, 5.0);
    assert ExpectedWait(5, 20.0, 5.0).s > 0.1;
    assert ExpectedWait(6, 20.0, 5.0).s < 0.1;
    assert FirstStable(20.0, 5.0) == 5;
    assert SearchFrom(6, 20.0, 5.0, 0.1, 20) == 6;
  }

  lemma FourPowers()
    ensures Pow(4.0, 1) == 4.0 && Pow(4.0, 2) == 16.0 && Pow(4.0, 3) == 64.0 && Pow(4.0, 4) == 256.0
    ensures Pow(4.0, 5) == 1024.0 && Pow(4.0, 6) == 4096.0
  {
    assert Pow(4.0, 0) == 1.0;
    hide Pow;
    NextPow(0, 4.0, 1.0);
    NextPow(1, 4.0, 4.0);
    NextPow(2, 4.0, 16.0);
    NextPow(3, 4.0, 64.0);
    NextPow(4, 4.0, 256.0);
    NextPow(5, 4.0, 1024.0);
  }

  lemma FourTerms()
    ensures Terms(4, 4.0) == 824.0 && Terms(5, 4.0) == 5144.0
  {
    FourPowers();
    assert Terms(0, 4.0) == 1.0;
    hide Pow, Terms;
    NextTerms(0, 4.0, 1.0, 4.0);
    NextTerms(1, 4.0, 5.0, 16.0);
    NextTerms(2, 4.0, 26.0, 64.0);
    NextTerms(3, 4.0, 142.0, 256.0);
    NextTerms(4, 4.0, 824.0, 1024.0);
  }

  /** The search, as a function. */
  function SearchFrom(c: int, lam: real, mu: real, slo: real, maxReplicas: int): int
    decreases maxReplicas - c
  {
    if c >= maxReplicas then maxReplicas
    else if Within(ExpectedWait(c, lam, mu), slo) then c
    else SearchFrom(c + 1, lam, mu, slo, maxReplicas)
  }

  function FirstStable(lam: real, mu: real): int
    requires mu != 0.0
  {
    var f := (lam / mu).Floor + 1;
    if f < 1 then 1 else f
  }

  function MinReplicas(lam: real, mu: real, slo: real, maxReplicas: int): int {
    if lam <= 0.0 || mu <= 0.0 then 0 else SearchFrom(FirstStable(lam, mu), lam, mu, slo, maxReplicas)
  }

  method SearchReplicas(lam: real, mu: real, slo: real, maxReplicas: int) returns (r: int)
    ensures r == MinReplicas(lam, mu, slo, maxReplicas)
  {
    if lam <= 0.0 || mu <= 0.0 {
      return 0;
    }
    var a := lam / mu;
    var c := if a.Floor + 1 < 1 then 1 else a.Floor + 1;
    while c < maxReplicas
      invariant SearchFrom(c, lam, mu, slo, maxReplicas) == MinReplicas(lam, mu, slo, maxReplicas)
    {
      if Within(ExpectedWait(c, lam, mu), slo) {
        return c;
      }
      c := c + 1;
    }
    r := maxReplicas;
  }

  lemma {:induction false} SearchFinds(c: int, lam: real, mu: real, slo: real, maxReplicas: int)
    requires mu > 0.0 && lam > 0.0
    requires forall k :: k < c ==> !Within(ExpectedWait(k, lam, mu), slo)
    ensures var r := SearchFrom(c, lam, mu, slo, maxReplicas);
      && r <= maxReplicas && (forall k :: k < r ==> !Within(ExpectedWait(k, lam, mu), slo))
      && (r < maxReplicas ==> Within(ExpectedWait(r, lam, mu), slo))
    decreases maxReplicas - c
  {
    if c < maxReplicas && !Within(ExpectedWait(c, lam, mu), slo) {
      SearchFinds(c + 1, lam, mu, slo, maxReplicas);
    }
  }

  /** The search returns the least count that meets the objective if there is one below the maximum,
      every larger count then meets it too, and otherwise the maximum is returned. */
  lemma SizingCorrect(lam: real, mu: real, slo: real, maxReplicas: int)
    requires mu > 0.0 && lam > 0.0
    ensures var r := MinReplicas(lam, mu, slo, maxReplicas);
      && (forall k :: k < r ==> !Within(ExpectedWait(k, lam, mu), slo))
      && (r < maxReplicas ==> forall d :: d >= r ==> Within(ExpectedWait(d, lam, mu), slo))
      && (r == maxReplicas || (1 <= r < maxReplicas && r as real > lam / mu))
  {
    var r := MinReplicas(lam, mu, slo, maxReplicas);
    var c := FirstStable(lam, mu);
    DivPositive(lam, mu);
    forall k | k < c ensures !Within(ExpectedWait(k, lam, mu), slo) {
      assert k as real <= lam / mu;
    }
    SearchFinds(c, lam, mu, slo, maxReplicas);
    if r < maxReplicas {
      forall d | d >= r ensures Within(ExpectedWait(d, lam, mu), slo) {
        MoreMeets(r, d, lam, mu, slo);
      }
    }
  }

  /** Below the maximum, a count is enough if and only if its wait is finite and at most the objective. */
  lemma EnoughIff(lam: real, mu: real, slo: real, maxReplicas: int, n: int)
    requires mu > 0.0 && lam > 0.0 && n < maxReplicas
    ensures MinReplicas(lam, mu, slo, maxReplicas) <= n <==>
      ExpectedWait(n, lam, mu).Finite? && ExpectedWait(n, lam, mu).s <= slo
  {
    SizingCorrect(lam, mu, slo, maxReplicas);
    hide MinReplicas, ExpectedWait;
  }
}
