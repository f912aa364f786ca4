/** The forgetting posterior behind stale service: its evidence has a real ceiling, and its decision bound
    stays on the safe side (src/hazard.rs). `f64` is modelled as `real`; the exponential and the logarithm
    are parameters of which a few facts are known. */
module Hazard {
  import opened Octets
  import opened Risk

  datatype Functions = Functions(exp: real -> real, ln: real -> real)

  /** All that is used of the exponential: between 0 and 1 / (1 - x) for x <= 0, above its tangent. */
  ghost predicate ExpFacts(exp: real -> real) {
    && (forall x :: x <= 0.0 ==> 0.0 < exp(x) && exp(x) * (1.0 - x) <= 1.0)
    && (forall x :: x < 0.0 ==> 1.0 + x < exp(x))
  }

  /** All that is used of the logarithm: its sign, below x / 2, and at least 1 - 1 / x. */
  ghost predicate LnFacts(ln: real -> real) {
    && ln(1.0) == 0.0 && (forall x :: 0.0 < x < 1.0 ==> ln(x) < 0.0)
    && (forall x :: x > 0.0 ==> ln(x) * 2.0 <= x && x * ln(x) >= x - 1.0)
  }

  function ModelExp(x: real): real {
    if x <= 0.0 then 1.0 / (1.0 - x) else 1.0
  }

  function ModelLn(x: real): real {
    if x > 0.0 then 1.0 - 1.0 / x else 0.0
  }

  lemma FactorSign(gap: real, d: real, e: real)
    requires gap * d == e && e > 0.0 && d > 0.0
    ensures gap > 0.0
  {
    assert gap <= 0.0 ==> gap * d <= 0.0;
  }

  lemma TangentBelow(x: real, q: real)
    requires x < 0.0 && q * (1.0 - x) == 1.0
    ensures 1.0 + x < q
  {
    assert x * x > 0.0;
    assert (1.0 + x) * (1.0 - x) == 1.0 - x * x;
    var gap, d := q - (1.0 + x), 1.0 - x;
    FactorSign(gap, d, x * x);
  }

  lemma Reciprocal(x: real)
    requires x <= 0.0
    ensures 1.0 - x > 0.0 && 1.0 / (1.0 - x) > 0.0 && 1.0 / (1.0 - x) * (1.0 - x) == 1.0
    ensures x < 0.0 ==> 1.0 + x < 1.0 / (1.0 - x)
  {
    var d := 1.0 - x;
    var q := 1.0 / d;
    assert q * d == 1.0;
    if q <= 0.0 {
      Scale(q, 0.0, d);
    }
    if x < 0.0 {
      TangentBelow(x, q);
    }
  }

  /** The facts do not contradict each other: there are functions that satisfy them. */
  lemma FactsAreConsistent()
    ensures ExpFacts(ModelExp) && LnFacts(ModelLn)
  {
    forall x | x <= 0.0
      ensures 0.0 < ModelExp(x) && ModelExp(x) * (1.0 - x) <= 1.0 && (x < 0.0 ==> 1.0 + x < ModelExp(x))
    {
      Reciprocal(x);
    }
    forall x | x > 0.0
      ensures ModelLn(x) * 2.0 <= x && x * ModelLn(x) >= x - 1.0 && (x < 1.0 ==> ModelLn(x) < 0.0)
    {
      LnReciprocal(x, 1.0 / x);
    }
    assert ModelLn(1.0) == 0.0;
  }

  lemma LnReciprocal(x: real, q: real)
    requires x > 0.0 && q * x == 1.0
    ensures (1.0 - q) * 2.0 <= x && x * (1.0 - q) == x - 1.0 && (x < 1.0 ==> q > 1.0)
  {
    var gap := x - 2.0 + 2.0 * q;
    assert gap * x == x * x - 2.0 * x + 2.0;
    assert (x - 1.0) * (x - 1.0) == x * x - 2.0 * x + 1.0;
    assert (x - 1.0) * (x - 1.0) >= 0.0;
    FactorSign(gap, x, gap * x);
    assert q <= 1.0 ==> q * x <= x;
  }

  // ---------------------------------------------------------------------------------------------
  // State

  datatype Tuning = Tuning(priorShape: real, confidence: real, forgettingSecs: real)

  datatype Model = Model(alphaEv: real, betaEv: real, priorTtl: real, evidence: real, lifetime: real,
                         observations: nat, changes: nat, failures: nat, consecutiveFailures: nat,
                         ttlEwma: real, ttlVolatility: real, lastObservation: int, lastChange: int)

  function Clamped(x: real, lo: real, hi: real): real {
    if x < lo then lo else if x > hi then hi else x
  }

  /** `sanitised`, for the fields the model reads. */
  function Sanitised(c: Tuning): (s: Tuning)
    ensures s.forgettingSecs >= 1.0 && s.priorShape > 0.0 && 0.0 < s.confidence < 1.0
    ensures c.forgettingSecs >= 1.0 && c.forgettingSecs <= 1000000000.0 ==> s.forgettingSecs == c.forgettingSecs
  {
    Tuning(Clamped(c.priorShape, 0.000001, 1000000.0), Clamped(c.confidence, 0.000000001, 0.999999999),
           Clamped(c.forgettingSecs, 1.0, 1000000000.0))
  }

  function TtlSecs(ttl: nat): real {
    (if ttl < 1 then 1 else ttl) as real
  }

  function New(ttl: nat, now: int): Model {
    Model(0.0, 0.0, TtlSecs(ttl), 0.0, 0.0, 0, 0, 0, 0, TtlSecs(ttl), 0.0, now, now)
  }

  /** `forgetting_factor`. */
  function Forgetting(f: Functions, tau: real, h: real): real {
    if tau <= 0.0 then 1.0 else f.exp(-h / tau)
  }

  /** Old evidence fades; new evidence is added by its weight. */
  function Blend(before: real, gamma: real, weight: real, amount: real): real {
    before * gamma + weight * amount
  }

  function Fade(x: real, gamma: real): real {
    x * gamma
  }

  /** `decay_to`. */
  function Decayed(f: Functions, tau: real, m: Model, now: int): Model {
    var elapsed := Seconds(now - m.lastObservation);
    if elapsed <= 0.0 then m
    else
      var g := Forgetting(f, tau, elapsed);
      m.(alphaEv := Fade(m.alphaEv, g), betaEv := Fade(m.betaEv, g), evidence := Fade(m.evidence, g),
         lastObservation := now)
  }

  /** `observe_failure`: the evidence ages, nothing is learned. */
  function Failed(f: Functions, tau: real, m: Model, now: int): Model {
    var d := Decayed(f, tau, m, now);
    d.(failures := d.failures + 1, consecutiveFailures := d.consecutiveFailures + 1)
  }

  function Abs(x: real): real { if x < 0.0 then -x else x }

  /** One step of an exponentially weighted average. */
  function Smoothed(average: real, x: real): real {
    average * 0.8 + x * 0.2
  }

  /** The newly observed TTL, folded into the prior anchor. */
  function Anchored(m: Model, ttl: nat): Model {
    var t := TtlSecs(ttl);
    if m.observations == 0 then m.(ttlEwma := t, ttlVolatility := 0.0, priorTtl := t)
    else
      m.(ttlVolatility := Smoothed(m.ttlVolatility, Abs(t - m.ttlEwma)), ttlEwma := Smoothed(m.ttlEwma, t),
         priorTtl := Max(Smoothed(m.ttlEwma, t), 1.0))
  }

  /** The evidence of one observation of `h` seconds with weight `w`. */
  function Learned(f: Functions, tau: real, m: Model, h: real, w: real, changed: bool, now: int): Model {
    var g := Forgetting(f, tau, h);
    var beta := Blend(m.betaEv, g, w, h);
    m.(alphaEv := Blend(m.alphaEv, g, w, if changed then 1.0 else 0.0), betaEv := beta, evidence := Max(beta, 0.0),
       lifetime := m.lifetime + Fade(w, h), observations := m.observations + 1,
       changes := if changed then m.changes + 1 else m.changes, consecutiveFailures := 0, lastObservation := now,
       lastChange := if changed then now else m.lastChange)
  }

  /** `observe`. */
  function Observed(f: Functions, tau: real, m: Model, interval: real, changed: bool, ttl: nat, now: int,
                    trust: real): Model
  {
    Learned(f, tau, Anchored(m, ttl), Max(interval, 0.0), Clamp(trust), changed, now)
  }

  datatype Event =
    | Observe(interval: real, changed: bool, ttl: nat, now: int, trust: real)
    | Failure(now: int)
    | Decay(now: int)

  function After(f: Functions, tau: real, m: Model, e: Event): Model {
    match e
    case Observe(interval, changed, ttl, now, trust) => Observed(f, tau, m, interval, changed, ttl, now, trust)
    case Failure(now) => Failed(f, tau, m, now)
    case Decay(now) => Decayed(f, tau, m, now)
  }

  /** `ms` are the states of a new model through a history of events. */
  ghost predicate IsHistory(f: Functions, tau: real, es: seq<Event>, ms: seq<Model>, ttl: nat, start: int) {
    && |ms| == |es| + 1 && ms[0] == New(ttl, start)
    && forall i :: 0 <= i < |es| ==> ms[i + 1] == After(f, tau, ms[i], es[i])
  }

  // ---------------------------------------------------------------------------------------------
  // The ceiling

  /** Every observation covers at most `hmax` seconds with weight at most `w`. */
  ghost predicate WithinLimits(es: seq<Event>, hmax: real, w: real) {
    forall i :: 0 <= i < |es| && es[i].Observe? ==> es[i].interval <= hmax && Clamp(es[i].trust) <= w
  }

  lemma ForgettingBounds(f: Functions, tau: real, h: real)
    requires ExpFacts(f.exp) && tau > 0.0 && h >= 0.0
    ensures 0.0 < Forgetting(f, tau, h) && Forgetting(f, tau, h) * (tau + h) <= tau
  {
    var x, g := -h / tau, f.exp(-h / tau);
    assert x * tau == -h;
    assert x <= 0.0;
    assert (g * (1.0 - x)) * tau == g * (tau + h) by {
      assert (1.0 - x) * tau == tau + h;
    }
    Scale(g * (1.0 - x), 1.0, tau);
  }

  lemma Positive(a: real, b: real)
    requires a > 0.0 && b > 0.0
    ensures a * b > 0.0
  {
  }

  lemma StrictScale(a: real, b: real, k: real)
    requires a < b && k > 0.0
    ensures a * k < b * k
  {
    Positive(b - a, k);
    assert (b - a) * k == b * k - a * k;
  }

  lemma NotNegative(a: real, b: real)
    requires a >= 0.0 && b >= 0.0
    ensures a * b >= 0.0
  {
  }

  lemma Expand(w: real, g: real, top: real, h: real)
    ensures w * (g * top + h) == (w * top) * g + w * h
  {
  }

  /** The heart of the ceiling: what an interval adds is no more than what it makes the model forget. */
  lemma CeilingStep(b: real, g: real, h: real, v: real, w: real, tau: real, hmax: real, top: real)
    requires tau > 0.0 && 0.0 <= h <= hmax && 0.0 <= v <= w && top == tau + hmax && 0.0 <= b <= w * top
    requires 0.0 < g && g * (tau + h) <= tau
    ensures 0.0 <= b * g + v * h <= w * top
  {
    ForgetsEnough(g, h, tau, hmax, top);
    NotNegative(b, g);
    NotNegative(v, h);
    CeilingSum(b, g, h, v, w, top);
  }

  lemma CeilingSum(b: real, g: real, h: real, v: real, w: real, top: real)
    requires b <= w * top && v <= w && 0.0 <= w && 0.0 <= h && 0.0 < g && g * top + h <= top
    ensures b * g + v * h <= w * top
  {
    var wt, s := w * top, g * top + h;
    Scale(b, wt, g);
    Scale(v, w, h);
    Scale(s, top, w);
    Expand(w, g, top, h);
    assert w * s == wt * g + w * h;
  }

  lemma ForgetsEnough(g: real, h: real, tau: real, hmax: real, top: real)
    requires tau > 0.0 && 0.0 <= h <= hmax && 0.0 < g && g * (tau + h) <= tau && top == tau + hmax
    ensures g * top + h <= top
  {
    var near, rest := tau + h, hmax - h;
    AtMostOne(g, near, tau);
    Scale(g, 1.0, rest);
    Parts(g, top, near, rest);
  }

  lemma AtMostOne(g: real, d: real, e: real)
    requires d >= e && d > 0.0 && g * d <= e
    ensures g <= 1.0
  {
    if g > 1.0 {
      StrictScale(1.0, g, d);
    }
  }

  lemma Parts(g: real, sum: real, a: real, b: real)
    requires sum == a + b
    ensures g * sum == g * a + g * b
  {
  }

  /** What every history keeps: non-negative evidence, a prior anchored at one second or more. */
  ghost predicate Sane(m: Model) {
    m.alphaEv >= 0.0 && m.betaEv >= 0.0 && m.evidence == m.betaEv && m.priorTtl >= 1.0
  }

  lemma DecayShrinks(f: Functions, tau: real, m: Model, now: int)
    requires ExpFacts(f.exp) && tau > 0.0 && Sane(m)
    ensures Sane(Decayed(f, tau, m, now)) && Decayed(f, tau, m, now).betaEv <= m.betaEv
  {
    var elapsed := Seconds(now - m.lastObservation);
    if elapsed > 0.0 {
      var g := Forgetting(f, tau, elapsed);
      ForgettingBounds(f, tau, elapsed);
      assert g > 1.0 ==> g * (tau + elapsed) > tau + elapsed;
      hide Forgetting, ExpFacts;
      Scale(g, 1.0, m.betaEv);
      Scale(0.0, m.betaEv, g);
      Scale(0.0, m.alphaEv, g);
    }
  }

  lemma ObserveKeeps(f: Functions, tau: real, m: Model, interval: real, changed: bool, ttl: nat,
                     now: int, trust: real, hmax: real, w: real)
    requires ExpFacts(f.exp) && tau > 0.0 && hmax >= 0.0 && Sane(m) && m.betaEv <= w * (tau + hmax)
    requires interval <= hmax && Clamp(trust) <= w
    ensures var m' := Observed(f, tau, m, interval, changed, ttl, now, trust);
            Sane(m') && m'.betaEv <= w * (tau + hmax)
  {
    var h, v := Max(interval, 0.0), Clamp(trust);
    var g := Forgetting(f, tau, h);
    ForgettingBounds(f, tau, h);
    CeilingStep(m.betaEv, g, h, v, w, tau, hmax, tau + hmax);
    Scale(0.0, m.alphaEv, g);
    hide Forgetting, ExpFacts;
  }

  /** The evidence ceiling: over every history of observations of at most `hmax` seconds with weight at
      most `w`, failures and decays included, the exposure evidence stays within w * (tau + hmax). */
  lemma {:induction false} EvidenceCeiling(f: Functions, tau: real, es: seq<Event>, ms: seq<Model>, ttl: nat,
                                           start: int, hmax: real, w: real, n: nat)
    requires ExpFacts(f.exp) && tau > 0.0 && hmax >= 0.0 && w >= 0.0
    requires IsHistory(f, tau, es, ms, ttl, start) && WithinLimits(es, hmax, w) && n <= |es|
    ensures Sane(ms[n]) && ms[n].betaEv <= w * (tau + hmax)
  {
    if n == 0 {
      Scale(0.0, tau + hmax, w);
    } else {
      EvidenceCeiling(f, tau, es, ms, ttl, start, hmax, w, n - 1);
      var m, e := ms[n - 1], es[n - 1];
      hide Observed, Decayed, Sane, ExpFacts;
      match e
      case Observe(interval, changed, newTtl, now, trust) =>
        ObserveKeeps(f, tau, m, interval, changed, newTtl, now, trust, hmax, w);
      case Failure(now) =>
        DecayShrinks(f, tau, m, now);
        SaneFailure(Decayed(f, tau, m, now));
      case Decay(now) => DecayShrinks(f, tau, m, now);
    }
  }

  lemma SaneFailure(d: Model)
    requires Sane(d)
    ensures Sane(d.(failures := d.failures + 1, consecutiveFailures := d.consecutiveFailures + 1))
  {
  }

  // ---------------------------------------------------------------------------------------------
  // The ceiling w * tau does not hold: any positive interval, repeated often enough, goes past it

  /** The exposure evidence after `n` observations of `h` seconds with full trust. */
  function Repeated(f: Functions, tau: real, h: real, n: nat): real {
    if n == 0 then 0.0 else ToppedUp(Repeated(f, tau, h, n - 1), Forgetting(f, tau, h), h)
  }

  function ToppedUp(b: real, gamma: real, h: real): real {
    b * gamma + h
  }

  /** By how much forgetting falls short of its tangent. */
  function Gain(f: Functions, tau: real, h: real): real
    requires tau > 0.0
  {
    Forgetting(f, tau, h) - (1.0 - h / tau)
  }

  lemma GainIsPositive(f: Functions, tau: real, h: real)
    requires ExpFacts(f.exp) && tau > 0.0 && h > 0.0
    ensures Gain(f, tau, h) > 0.0 && Forgetting(f, tau, h) * tau == tau - h + Gain(f, tau, h) * tau
  {
    var x, q := -h / tau, h / tau;
    assert q * tau == h;
    FactorSign(q, tau, h);
    assert x * tau == -h;
    assert (x + q) * tau == 0.0;
    assert x == -q;
    assert f.exp(x) > 1.0 + x;
  }

  /** `g` forgets less than its tangent by `gain`, which makes a step of `step` seconds. */
  ghost predicate Gains(g: real, h: real, tau: real, gain: real, step: real) {
    tau > 0.0 && h > 0.0 && gain > 0.0 && g * tau == tau - h + gain * tau && step == h * gain && step > 0.0
  }

  lemma RepeatedStep(b: real, g: real, h: real, tau: real, gain: real, step: real)
    requires Gains(g, h, tau, gain, step) && h <= b <= tau
    ensures ToppedUp(b, g, h) >= b + step
  {
    assert (b * g + h - b - b * gain) * tau == h * (tau - b) by {
      assert b * g * tau == b * (g * tau);
      assert b * (tau - h + gain * tau) == b * tau - b * h + b * gain * tau;
    }
    Scale(0.0, tau - b, h);
    var x := b * g + h - b - b * gain;
    assert x < 0.0 ==> x * tau < 0.0;
    Scale(h, b, gain);
  }

  lemma FirstTopUp(g: real, h: real)
    ensures ToppedUp(0.0, g, h) == h
  {
  }

  /** `start`, raised by `step` at every stage after the first. */
  function Climb(start: real, step: real, n: nat): real {
    if n <= 1 then start else Climb(start, step, n - 1) + step
  }

  lemma OneMoreTime(m: real, m': real, step: real)
    requires m' == m + 1.0
    ensures m' * step == m * step + step
  {
  }

  lemma {:induction false} ClimbIs(start: real, step: real, n: nat, m: real)
    requires n >= 1 && m == (n - 1) as real
    ensures Climb(start, step, n) == start + m * step
  {
    if n > 1 {
      var m1 := m - 1.0;
      ClimbIs(start, step, n - 1, m1);
      OneMoreTime(m1, m, step);
    } else {
      assert 0.0 * step == 0.0;
    }
  }

  lemma {:induction false} ClimbRises(start: real, step: real, n: nat)
    requires step >= 0.0
    ensures Climb(start, step, n) >= start
  {
    if n > 1 {
      ClimbRises(start, step, n - 1);
    }
  }

  /** While it stays below tau, the evidence rises by at least a fixed step with every observation. */
  lemma {:induction false} RepeatedGrows(f: Functions, tau: real, h: real, gain: real, step: real, n: nat)
    requires Gains(Forgetting(f, tau, h), h, tau, gain, step) && step >= 0.0
    requires n >= 1 && forall k :: 1 <= k <= n ==> Repeated(f, tau, h, k) <= tau
    ensures Repeated(f, tau, h, n) >= Climb(h, step, n)
  {
    hide Forgetting, Gains, ToppedUp;
    if n > 1 {
      RepeatedGrows(f, tau, h, gain, step, n - 1);
      ClimbRises(h, step, n - 1);
      RepeatedStep(Repeated(f, tau, h, n - 1), Forgetting(f, tau, h), h, tau, gain, step);
    } else {
      FirstTopUp(Forgetting(f, tau, h), h);
      assert Repeated(f, tau, h, 0) == 0.0;
    }
  }

  lemma TooMany(tau: real, step: real) returns (n: nat, m: real)
    requires step > 0.0 && tau > 0.0
    ensures n >= 1 && m == (n - 1) as real && m * step > tau
  {
    var q := tau / step;
    assert q * step == tau;
    FactorSign(q, step, tau);
    n := q.Floor + 2;
    m := (n - 1) as real;
    Past(q, m, step, tau);
  }

  lemma Past(q: real, m: real, step: real, tau: real)
    requires q < m && step > 0.0 && q * step == tau
    ensures m * step > tau
  {
    StrictScale(q, m, step);
  }

  /** For any positive interval some number of observations takes the evidence past tau. */
  lemma RepeatedPassesTau(f: Functions, tau: real, h: real) returns (n: nat)
    requires ExpFacts(f.exp) && tau > 0.0 && h > 0.0
    ensures Repeated(f, tau, h, n) > tau
  {
    var gain, step := GainOf(f, tau, h);
    hide Gains, Forgetting, ExpFacts, ToppedUp;
    if forall k: nat :: 1 <= k ==> Repeated(f, tau, h, k) <= tau {
      var m;
      n, m := TooMany(tau, step);
      ClimbIs(h, step, n, m);
      RepeatedGrows(f, tau, h, gain, step, n);
    } else {
      n :| 1 <= n && Repeated(f, tau, h, n) > tau;
    }
  }

  lemma GainOf(f: Functions, tau: real, h: real) returns (gain: real, step: real)
    requires ExpFacts(f.exp) && tau > 0.0 && h > 0.0
    ensures Gains(Forgetting(f, tau, h), h, tau, gain, step) && step > 0.0
  {
    gain := Gain(f, tau, h);
    GainIsPositive(f, tau, h);
    step := h * gain;
    Positive(h, gain);
  }

  /** `n` observations of `h` seconds each, of weight `w`. */
  function Steady(h: real, w: real, start: int, n: nat): (es: seq<Event>)
    ensures |es| == n && forall i :: 0 <= i < n ==> es[i] == Observe(h, false, 1, start, w)
  {
    seq(n, _ => Observe(h, false, 1, start, w))
  }

  /** The states of a new model through the first `n` of `es`. */
  function States(f: Functions, tau: real, es: seq<Event>, ttl: nat, start: int, n: nat): (ms: seq<Model>)
    requires n <= |es|
    ensures |ms| == n + 1
  {
    if n == 0 then [New(ttl, start)]
    else
      var ms := States(f, tau, es, ttl, start, n - 1);
      ms + [After(f, tau, ms[n - 1], es[n - 1])]
  }

  lemma {:induction false} StatesAreHistory(f: Functions, tau: real, es: seq<Event>, ttl: nat, start: int, n: nat)
    requires n <= |es|
    ensures IsHistory(f, tau, es[..n], States(f, tau, es, ttl, start, n), ttl, start)
  {
    hide After;
    if n > 0 {
      StatesAreHistory(f, tau, es, ttl, start, n - 1);
      var ms, ms' := States(f, tau, es, ttl, start, n - 1), States(f, tau, es, ttl, start, n);
      assert es[..n][..n - 1] == es[..n - 1];
      forall i | 0 <= i < n ensures ms'[i + 1] == After(f, tau, ms'[i], es[..n][i]) {
        if i < n - 1 {
          assert es[..n - 1][i] == es[..n][i] && ms'[i] == ms[i] && ms'[i + 1] == ms[i + 1];
        }
      }
    }
  }

  lemma SteadyStep(f: Functions, tau: real, m: Model, h: real, w: real, start: int, r: real)
    requires h >= 0.0 && 0.0 <= w <= 1.0 && m.betaEv == w * r
    ensures After(f, tau, m, Observe(h, false, 1, start, w)).betaEv == w * ToppedUp(r, Forgetting(f, tau, h), h)
  {
    var g := Forgetting(f, tau, h);
    hide Forgetting;
    Expand(w, g, r, h);
    assert g * r + h == ToppedUp(r, g, h);
  }

  /** Such a history gathers `w` times what full trust would. */
  lemma {:induction false} SteadyEvidence(f: Functions, tau: real, h: real, w: real, ttl: nat, start: int,
                                          all: nat, n: nat)
    requires h >= 0.0 && 0.0 <= w <= 1.0 && n <= all
    ensures States(f, tau, Steady(h, w, start, all), ttl, start, n)[n].betaEv == w * Repeated(f, tau, h, n)
  {
    hide After, ToppedUp, Forgetting;
    if n > 0 {
      SteadyEvidence(f, tau, h, w, ttl, start, all, n - 1);
      var m := States(f, tau, Steady(h, w, start, all), ttl, start, n - 1)[n - 1];
      SteadyStep(f, tau, m, h, w, start, Repeated(f, tau, h, n - 1));
    } else {
      assert w * 0.0 == 0.0;
    }
  }

  /** Every history within the limits keeps the exposure evidence within w * tau. */
  ghost predicate TauIsCeiling(f: Functions, tau: real, ttl: nat, start: int, hmax: real, w: real) {
    forall es: seq<Event>, ms: seq<Model>, n: nat ::
      IsHistory(f, tau, es, ms, ttl, start) && WithinLimits(es, hmax, w) && n <= |es| ==> ms[n].betaEv <= w * tau
  }

  /** A history within the limits that goes past w * tau. */
  lemma PastTau(f: Functions, tau: real, ttl: nat, start: int, hmax: real, w: real)
    returns (es: seq<Event>, ms: seq<Model>, n: nat)
    requires ExpFacts(f.exp) && tau > 0.0 && 0.0 < w <= 1.0 && hmax > 0.0
    ensures IsHistory(f, tau, es, ms, ttl, start) && WithinLimits(es, hmax, w) && n <= |es|
    ensures ms[n].betaEv > w * tau
  {
    n := RepeatedPassesTau(f, tau, hmax);
    hide States, IsHistory, Repeated;
    es := Steady(hmax, w, start, n);
    ms := States(f, tau, es, ttl, start, n);
    StatesAreHistory(f, tau, es, ttl, start, n);
    TakeAll(es);
    SteadyEvidence(f, tau, hmax, w, ttl, start, n, n);
    StrictScale(tau, Repeated(f, tau, hmax, n), w);
  }

  /** So w * tau is a ceiling for all histories if and only if they carry no weight or no time. */
  lemma TauIsCeilingWhen(f: Functions, tau: real, ttl: nat, start: int, hmax: real, w: real)
    requires ExpFacts(f.exp) && tau > 0.0 && 0.0 <= w <= 1.0 && hmax >= 0.0
    ensures TauIsCeiling(f, tau, ttl, start, hmax, w) <==> w == 0.0 || hmax == 0.0
  {
    hide WithinLimits, ExpFacts, Sane, After;
    if w == 0.0 || hmax == 0.0 {
      assert w * (tau + hmax) == w * tau;
      forall es: seq<Event>, ms: seq<Model>, n: nat |
        IsHistory(f, tau, es, ms, ttl, start) && WithinLimits(es, hmax, w) && n <= |es|
        ensures ms[n].betaEv <= w * tau
      {
        EvidenceCeiling(f, tau, es, ms, ttl, start, hmax, w, n);
      }
    } else {
      var es, ms, n := PastTau(f, tau, ttl, start, hmax, w);
    }
  }

  // ---------------------------------------------------------------------------------------------
  // The posterior and its upper bound

  function Shape(c: Tuning): real {
    Max(c.priorShape, 0.000000001)
  }

  /** `posterior`: shape and rate scale. */
  function Posterior(c: Tuning, m: Model): (real, real) {
    (Shape(c) + m.alphaEv, Shape(c) * m.priorTtl + m.betaEv)
  }

  /** `tail_probability`. */
  function Tail(c: Tuning): (d: real)
    ensures 0.0 < d < 1.0
  {
    Clamped(1.0 - c.confidence, 0.000000000001, 0.999999999999)
  }

  /** The logarithm of the Chernoff bound at `x`, over the tail probability. */
  function ExcessAt(ln: real -> real, alpha: real, beta: real, delta: real, x: real): real
    requires alpha > 0.0
  {
    alpha - beta * x + alpha * ln(beta * x / alpha) - ln(delta)
  }

  function Excess(ln: real -> real, alpha: real, beta: real, delta: real): real -> real
    requires alpha > 0.0
  {
    x => ExcessAt(ln, alpha, beta, delta, x)
  }

  /** `width` halved `k` times. */
  function Narrowed(width: real, k: nat): real
    decreases k
  {
    if k == 0 then width else Narrowed(0.5 * width, k - 1)
  }

  /** Doubles `hi` until the excess is gone, at most 64 times. */
  function Bracket(g: real -> real, hi: real, growth: nat): Option<real>
    decreases 64 - growth
  {
    if g(hi) <= 0.0 then Some(hi) else if growth >= 64 then None else Bracket(g, hi * 2.0, growth + 1)
  }

  /** The bisection, from step `i` on. */
  function Bisected(g: real -> real, lo: real, hi: real, i: nat): (real, real)
    decreases 96 - i
  {
    var mid := 0.5 * (lo + hi);
    if i >= 96 || mid <= lo || mid >= hi then (lo, hi)
    else if g(mid) > 0.0 then Bisected(g, mid, hi, i + 1)
    else Bisected(g, lo, mid, i + 1)
  }

  /** Where the excess `g` is gone, searched for above `mean`. */
  function CrossingAbove(g: real -> real, mean: real): Option<real> {
    match Bracket(g, mean * 2.0, 0)
    case None => None
    case Some(hi) => Some(Bisected(g, mean, hi, 0).1)
  }

  /** `gamma_upper_bound`; `None` stands for infinity. */
  function GammaBound(ln: real -> real, alpha: real, beta: real, delta: real): Option<real> {
    if alpha <= 0.0 || beta <= 0.0 || delta <= 0.0 then None
    else if delta >= 1.0 then Some(alpha / beta)
    else CrossingAbove(Excess(ln, alpha, beta, delta), alpha / beta)
  }

  lemma {:induction false} BracketGrows(g: real -> real, hi: real, growth: nat)
    requires hi > 0.0
    ensures Bracket(g, hi, growth).Some? ==>
              Bracket(g, hi, growth).value >= hi && g(Bracket(g, hi, growth).value) <= 0.0
    decreases 64 - growth
  {
    if g(hi) > 0.0 && growth < 64 {
      BracketGrows(g, hi * 2.0, growth + 1);
    }
  }

  /** `x` doubled `n` times. */
  function Doubled(x: real, n: nat): real
    decreases n
  {
    if n == 0 then x else Doubled(x * 2.0, n - 1)
  }

  /** The search for a bracket ends with a success if the excess is gone at the last point it would try. */
  lemma {:induction false} BracketFinds(g: real -> real, hi: real, growth: nat)
    requires growth <= 64 && g(Doubled(hi, 64 - growth)) <= 0.0
    ensures Bracket(g, hi, growth).Some?
    decreases 64 - growth
  {
    if growth < 64 {
      BracketFinds(g, hi * 2.0, growth + 1);
    }
  }

  lemma {:induction false} DoubledScales(k: real, x: real, y: real, n: nat)
    requires y == k * x
    ensures Doubled(y, n) == k * Doubled(x, n)
    decreases n
  {
    if n > 0 {
      DoubledScales(k, x * 2.0, y * 2.0, n - 1);
    }
  }

  lemma DoubledEight(x: real, n: nat)
    ensures Doubled(x, n + 8) == Doubled(x * 256.0, n)
  {
    assert Doubled(x, n + 8) == Doubled(x * 4.0, n + 6);
    assert Doubled(x * 4.0, n + 6) == Doubled(x * 16.0, n + 4);
    assert Doubled(x * 16.0, n + 4) == Doubled(x * 64.0, n + 2);
  }

  lemma LastPoint(mean: real) returns (p: real)
    ensures Doubled(mean * 2.0, 64) == mean * p && p > 10000000000000000000.0
  {
    p := Doubled(2.0, 64);
    DoubledScales(mean, 2.0, mean * 2.0, 64);
    DoubledEight(2.0, 56);
    DoubledEight(512.0, 48);
    DoubledEight(131072.0, 40);
    DoubledEight(33554432.0, 32);
    DoubledEight(8589934592.0, 24);
    DoubledEight(2199023255552.0, 16);
    DoubledEight(562949953421312.0, 8);
    DoubledEight(144115188075855872.0, 0);
  }

  lemma LnOfTail(ln: real -> real, delta: real)
    requires LnFacts(ln) && delta >= 0.000000000001
    ensures ln(delta) >= -1000000000000.0
  {
    LowerBound(delta, ln(delta));
  }

  lemma LowerBound(delta: real, u: real)
    requires delta >= 0.000000000001 && delta * u >= delta - 1.0
    ensures u >= -1000000000000.0
  {
    var v := -u;
    assert delta * v == -(delta * u);
    assert v > 0.0 ==> delta * v >= 0.000000000001 * v by {
      if v > 0.0 {
        Scale(0.000000000001, delta, v);
      }
    }
  }

  /** Far enough out the excess is gone. */
  lemma ExcessFarOut(ln: real -> real, alpha: real, beta: real, delta: real, x: real, y: real,
                     p: real)
    requires LnFacts(ln) && alpha >= 0.000001 && delta >= 0.000000000001
    requires y == beta * x == alpha * p && y / alpha == p && p > 10000000000000000000.0
    ensures ExcessAt(ln, alpha, beta, delta, x) <= 0.0
  {
    var q := beta * x / alpha;
    assert q == y / alpha;
    var t, u := ln(q), ln(delta);
    LnOfTail(ln, delta);
    FarArithmetic(alpha, p, y, t, alpha * t);
  }

  lemma FarArithmetic(alpha: real, p: real, y: real, t: real, e: real)
    requires alpha >= 0.000001 && p > 10000000000000000000.0 && y == alpha * p && t * 2.0 <= p && e == alpha * t
    ensures alpha - y + e <= -1000000000000.0
  {
    var half := p / 2.0;
    var rest := half - 1.0;
    Scale(t, half, alpha);
    Scale(0.000001, alpha, rest);
    var ah := alpha * half;
    assert e <= ah && y == ah + ah;
    var ar := rest * alpha;
    assert ar == ah - alpha;
    assert ar >= rest * 0.000001;
    assert rest * 0.000001 >= 1000000000000.0;
  }

  lemma LastPointIs(alpha: real, beta: real, mean: real, p: real, x: real) returns (y: real)
    requires alpha > 0.0 && mean * beta == alpha && x == mean * p
    ensures y == beta * x == alpha * p && y / alpha == p
  {
    y := beta * x;
    assert y == (mean * beta) * p;
    Divided(y, alpha, p);
  }

  lemma Divided(y: real, alpha: real, p: real)
    requires alpha > 0.0 && y == alpha * p
    ensures y / alpha == p
  {
    var q := y / alpha;
    assert q * alpha == y;
    if q < p {
      StrictScale(q, p, alpha);
    } else if p < q {
      StrictScale(p, q, alpha);
    }
  }

  /** With the shape and the tail of a sanitised configuration a finite bound is always found. */
  lemma BoundIsFound(ln: real -> real, alpha: real, beta: real, delta: real)
    requires LnFacts(ln) && alpha >= 0.000001 && beta > 0.0 && delta >= 0.000000000001
    ensures GammaBound(ln, alpha, beta, delta).Some?
  {
    var mean, g := alpha / beta, Excess(ln, alpha, beta, delta);
    var p := LastPoint(mean);
    hide LnFacts, ExcessAt, Bracket, Bisected, Doubled;
    var x := mean * p;
    assert mean * beta == alpha;
    var y := LastPointIs(alpha, beta, mean, p, x);
    ExcessFarOut(ln, alpha, beta, delta, x, y, p);
    FoundThere(ln, alpha, beta, delta, mean, x);
  }

  lemma FoundThere(ln: real -> real, alpha: real, beta: real, delta: real, mean: real, x: real)
    requires alpha > 0.0 && beta > 0.0 && delta > 0.0 && mean == alpha / beta && x == Doubled(mean * 2.0, 64)
    requires ExcessAt(ln, alpha, beta, delta, x) <= 0.0
    ensures GammaBound(ln, alpha, beta, delta).Some?
  {
    hide ExcessAt, Bracket, Bisected, Doubled;
    BracketFinds(Excess(ln, alpha, beta, delta), mean * 2.0, 0);
  }

  /** The bisection keeps the crossing between its ends, and halves their distance at every step. */
  lemma {:induction false} BisectionIsSafe(g: real -> real, lo: real, hi: real, i: nat)
    requires lo < hi && g(lo) > 0.0 && g(hi) <= 0.0 && i <= 96
    ensures var (l, h) := Bisected(g, lo, hi, i);
            && lo <= l < h <= hi && g(l) > 0.0 && g(h) <= 0.0 && h - l == Narrowed(hi - lo, 96 - i)
    decreases 96 - i
  {
    if i < 96 {
      var mid := 0.5 * (lo + hi);
      assert hi - mid == 0.5 * (hi - lo) == mid - lo;
      if g(mid) > 0.0 {
        BisectionIsSafe(g, mid, hi, i + 1);
      } else {
        BisectionIsSafe(g, lo, mid, i + 1);
      }
    }
  }

  lemma ExcessAtMean(ln: real -> real, alpha: real, beta: real, delta: real)
    requires LnFacts(ln) && alpha > 0.0 && beta > 0.0 && 0.0 < delta < 1.0
    ensures alpha / beta > 0.0 && Excess(ln, alpha, beta, delta)(alpha / beta) > 0.0
  {
    var mean := alpha / beta;
    var y := beta * mean;
    assert y == alpha;
    FactorSign(mean, beta, alpha);
    assert y / alpha == 1.0;
    ExcessIs(ln, alpha, beta, delta, mean, y);
  }

  lemma ExcessIs(ln: real -> real, alpha: real, beta: real, delta: real, x: real, y: real)
    requires ln(1.0) == 0.0 && alpha > 0.0 && y == beta * x == alpha && y / alpha == 1.0
    ensures ExcessAt(ln, alpha, beta, delta, x) == -ln(delta)
  {
    var q := beta * x / alpha;
    assert q == y / alpha;
    var t := ln(q);
    assert t == 0.0;
    assert alpha * t == 0.0;
  }

  /** `x` is where the excess `g` is gone, 96 halvings of the bracket away from a point `l` where it is not. */
  ghost predicate Crossing(g: real -> real, mean: real, l: real, x: real, hi: real) {
    mean <= l < x && g(l) > 0.0 && g(x) <= 0.0 && x - l == Narrowed(hi - mean, 96)
  }

  lemma BracketThenBisect(g: real -> real, mean: real, hi: real) returns (l: real)
    requires mean > 0.0 && g(mean) > 0.0 && Bracket(g, mean * 2.0, 0) == Some(hi)
    ensures Crossing(g, mean, l, Bisected(g, mean, hi, 0).1, hi)
  {
    BracketGrows(g, mean * 2.0, 0);
    BisectionIsSafe(g, mean, hi, 0);
    hide Bracket, Bisected, Narrowed;
    l := Bisected(g, mean, hi, 0).0;
  }

  lemma BoundParts(ln: real -> real, alpha: real, beta: real, delta: real, x: real, g: real -> real,
                   mean: real) returns (hi: real)
    requires alpha > 0.0 && beta > 0.0 && 0.0 < delta < 1.0 && GammaBound(ln, alpha, beta, delta) == Some(x)
    requires g == Excess(ln, alpha, beta, delta) && mean == alpha / beta
    ensures Bracket(g, mean * 2.0, 0) == Some(hi) && x == Bisected(g, mean, hi, 0).1
  {
    hide Bracket, Bisected, Excess;
    hi := Bracket(g, mean * 2.0, 0).value;
  }

  /** The upper bound on the rate is above the mean; it lies on the side of the crossing where the Chernoff
      bound has fallen to the tail probability, 96 halvings of the bracket away from one where it has not. */
  lemma BoundIsSafe(ln: real -> real, alpha: real, beta: real, delta: real, x: real, mean: real)
    returns (l: real, hi: real)
    requires LnFacts(ln) && alpha > 0.0 && beta > 0.0 && 0.0 < delta < 1.0 && mean == alpha / beta
    requires GammaBound(ln, alpha, beta, delta) == Some(x)
    ensures x > mean > 0.0 && Crossing(Excess(ln, alpha, beta, delta), mean, l, x, hi)
    ensures Bracket(Excess(ln, alpha, beta, delta), mean * 2.0, 0) == Some(hi)
  {
    var g := Excess(ln, alpha, beta, delta);
    hi := BoundParts(ln, alpha, beta, delta, x, g, mean);
    ExcessAtMean(ln, alpha, beta, delta);
    hide Bracket, Bisected, LnFacts, Excess, Narrowed, GammaBound;
    l := BracketThenBisect(g, mean, hi);
  }

  // ---------------------------------------------------------------------------------------------
  // The decision bound

  function ExpNonpos(f: Functions, x: real): real {
    if x <= -745.0 then 0.0 else f.exp(x)
  }

  function SurvivalAt(f: Functions, rate: real, secs: real): real {
    Clamp(ExpNonpos(f, -rate * secs))
  }

  /** The survival probability at the bound on the rate. */
  function Survival(f: Functions, bound: Option<real>, secs: real): real {
    match bound
    case None => 0.0
    case Some(rate) => SurvivalAt(f, rate, secs)
  }

  /** `hazard_upper_bound`. */
  function RateBound(f: Functions, c: Tuning, m: Model): Option<real> {
    GammaBound(f.ln, Posterior(c, m).0, Posterior(c, m).1, Tail(c))
  }

  /** `freshness_lcb`. */
  function FreshnessLcb(f: Functions, c: Tuning, m: Model, secs: real): real {
    if secs <= 0.0 then 1.0 else Survival(f, RateBound(f, c, m), secs)
  }

  /** So after any history a sanitised model has a finite bound on its rate, and `BoundIsSafe` speaks of it. */
  lemma RateIsFinite(f: Functions, c: Tuning, m: Model)
    requires LnFacts(f.ln) && Sane(m)
    ensures RateBound(f, Sanitised(c), m).Some?
  {
    var s := Sanitised(c);
    assert s.priorShape >= 0.000001;
    Scale(1.0, m.priorTtl, Shape(s));
    hide LnFacts, GammaBound;
    BoundIsFound(f.ln, Posterior(s, m).0, Posterior(s, m).1, Tail(s));
  }

  lemma QuotientIs(a: real, b: real, c: real, d: real)
    requires 0.0 < a <= c && 0.0 < d <= b
    ensures a / b <= c / d && a / b > 0.0
  {
    var p, q := a / b, c / d;
    assert p * b == a && q * d == c;
    FactorSign(p, b, a);
    Scale(d, b, p);
    assert (q - p) * d == c - p * d;
    assert (q - p) * d >= 0.0;
    assert q - p < 0.0 ==> (q - p) * d < 0.0;
  }

  /** The posterior mean has a floor that no evidence within the ceiling can lower. */
  lemma MeanHasFloor(c: Tuning, m: Model, ceiling: real)
    requires Sane(m) && m.betaEv <= ceiling
    ensures var (alpha, beta) := Posterior(c, m);
            alpha > 0.0 && beta > 0.0 && alpha / beta >= MeanFloor(c, m, ceiling) > 0.0
  {
    var a := Shape(c);
    assert a > 0.0;
    Scale(1.0, m.priorTtl, a);
    QuotientIs(a, a * m.priorTtl + ceiling, a + m.alphaEv, a * m.priorTtl + m.betaEv);
  }

  /** Below 1, and below 1 / (1 + rate * secs). */
  ghost predicate WithMargin(p: real, rate: real, secs: real) {
    0.0 <= p < 1.0 && p * (1.0 + rate * secs) <= 1.0
  }

  /** What the posterior mean cannot fall below while the exposure evidence stays within `ceiling`. */
  function MeanFloor(c: Tuning, m: Model, ceiling: real): real
    requires m.priorTtl > 0.0 && ceiling >= 0.0
  {
    Positive(Shape(c), m.priorTtl);
    Shape(c) / (Shape(c) * m.priorTtl + ceiling)
  }

  lemma ExpMargin(f: Functions, rate: real, floor: real, secs: real)
    requires ExpFacts(f.exp) && rate >= floor > 0.0 && secs > 0.0
    ensures WithMargin(SurvivalAt(f, rate, secs), floor, secs)
  {
    var x, e := -rate * secs, f.exp(-rate * secs);
    Scale(floor, rate, secs);
    assert x == -(rate * secs);
    assert floor * secs > 0.0;
    assert e * (1.0 - x) <= 1.0;
    Scale(1.0 + floor * secs, 1.0 - x, e);
    assert e >= 1.0 ==> e * (1.0 + floor * secs) > 1.0;
    assert 0.0 * (1.0 + floor * secs) == 0.0;
  }

  lemma SurvivalMargin(f: Functions, bound: Option<real>, floor: real, secs: real)
    requires ExpFacts(f.exp) && floor > 0.0 && secs > 0.0 && (bound.Some? ==> bound.value >= floor)
    ensures WithMargin(Survival(f, bound, secs), floor, secs)
  {
    hide ExpFacts, SurvivalAt;
    if bound.Some? {
      ExpMargin(f, bound.value, floor, secs);
    } else {
      assert 0.0 * (1.0 + floor * secs) == 0.0;
    }
  }

  /** For any positive horizon the decision bound stays below 1, by a margin that depends only on the prior,
      the ceiling and the horizon. */
  lemma LcbStaysBelowOne(f: Functions, c: Tuning, m: Model, ceiling: real, secs: real)
    requires ExpFacts(f.exp) && LnFacts(f.ln) && Sane(m) && m.betaEv <= ceiling && secs > 0.0
    ensures MeanFloor(c, m, ceiling) > 0.0 && WithMargin(FreshnessLcb(f, c, m, secs), MeanFloor(c, m, ceiling), secs)
  {
    var alpha, beta := Posterior(c, m).0, Posterior(c, m).1;
    MeanHasFloor(c, m, ceiling);
    hide MeanFloor, WithMargin, Survival, GammaBound, Posterior, ExpFacts, LnFacts, Sane, Tail;
    var bound := GammaBound(f.ln, alpha, beta, Tail(c));
    if bound.Some? {
      var l, hi := BoundIsSafe(f.ln, alpha, beta, Tail(c), bound.value, alpha / beta);
    }
    SurvivalMargin(f, bound, MeanFloor(c, m, ceiling), secs);
  }

  /** So it does after every history within the limits, with the evidence ceiling in place of the evidence. */
  lemma HistoriesStayBelowOne(f: Functions, c: Tuning, es: seq<Event>, ms: seq<Model>, ttl: nat,
                              start: int, hmax: real, w: real, n: nat, secs: real, ceiling: real)
    requires ExpFacts(f.exp) && LnFacts(f.ln) && c.forgettingSecs > 0.0 && hmax >= 0.0 && w >= 0.0 && secs > 0.0
    requires IsHistory(f, c.forgettingSecs, es, ms, ttl, start) && WithinLimits(es, hmax, w) && n <= |es|
    requires ceiling == w * (c.forgettingSecs + hmax)
    ensures ms[n].priorTtl > 0.0 && 0.0 <= ceiling && MeanFloor(c, ms[n], ceiling) > 0.0
    ensures WithMargin(FreshnessLcb(f, c, ms[n], secs), MeanFloor(c, ms[n], ceiling), secs)
  {
    EvidenceCeiling(f, c.forgettingSecs, es, ms, ttl, start, hmax, w, n);
    hide MeanFloor, WithMargin, FreshnessLcb, IsHistory, ExpFacts, LnFacts, WithinLimits;
    LcbStaysBelowOne(f, c, ms[n], ceiling, secs);
  }

  // ---------------------------------------------------------------------------------------------
  // The model as the program updates it

  method FindBracket(g: real -> real, start: real) returns (r: Option<real>)
    ensures r == Bracket(g, start, 0)
  {
    var hi, growth := start, 0;
    while g(hi) > 0.0
      invariant growth <= 64 && Bracket(g, start, 0) == Bracket(g, hi, growth)
      decreases 64 - growth
    {
      if growth >= 64 {
        return None;
      }
      hi, growth := hi * 2.0, growth + 1;
    }
    r := Some(hi);
  }

  /** At most 96 bisections. */
  method Bisect(g: real -> real, start: real, end: real) returns (hi: real)
    ensures hi == Bisected(g, start, end, 0).1
  {
    var lo, i := start, 0;
    hi := end;
    while i < 96
      invariant i <= 96 && Bisected(g, start, end, 0) == Bisected(g, lo, hi, i)
    {
      var mid := 0.5 * (lo + hi);
      if mid <= lo || mid >= hi {
        break;
      }
      if g(mid) > 0.0 {
        lo := mid;
      } else {
        hi := mid;
      }
      i := i + 1;
    }
  }

  method FindCrossing(g: real -> real, mean: real) returns (r: Option<real>)
    ensures r == CrossingAbove(g, mean)
  {
    hide Bracket, Bisected;
    r := FindBracket(g, mean * 2.0);
    if r.Some? {
      var hi := Bisect(g, mean, r.value);
      r := Some(hi);
    }
  }

  /** `gamma_upper_bound`: doubling until the excess is gone, then bisecting. */
  method GammaUpperBound(ln: real -> real, alpha: real, beta: real, delta: real) returns (r: Option<real>)
    ensures r == GammaBound(ln, alpha, beta, delta)
  {
    hide Excess, CrossingAbove;
    if alpha <= 0.0 || beta <= 0.0 || delta <= 0.0 {
      return None;
    }
    if delta >= 1.0 {
      return Some(alpha / beta);
    }
    r := FindCrossing(Excess(ln, alpha, beta, delta), alpha / beta);
  }

  class HazardModel {
    const config: Tuning
    var alphaEv: real
    var betaEv: real
    var priorTtl: real
    var evidence: real
    var lifetime: real
    var observations: nat
    var changes: nat
    var failures: nat
    var consecutiveFailures: nat
    var ttlEwma: real
    var ttlVolatility: real
    var lastObservation: int
    var lastChange: int

    function Value(): Model
      reads this
    {
      Model(alphaEv, betaEv, priorTtl, evidence, lifetime, observations, changes, failures, consecutiveFailures,
            ttlEwma, ttlVolatility, lastObservation, lastChange)
    }

    constructor (config: Tuning, ttl: nat, now: int)
      ensures this.config == config && Value() == New(ttl, now)
    {
      this.config := config;
      alphaEv, betaEv, evidence, lifetime, ttlVolatility := 0.0, 0.0, 0.0, 0.0, 0.0;
      priorTtl, ttlEwma := TtlSecs(ttl), TtlSecs(ttl);
      observations, changes, failures, consecutiveFailures := 0, 0, 0, 0;
      lastObservation, lastChange := now, now;
    }

    method DecayTo(f: Functions, now: int)
      modifies this
      ensures Value() == Decayed(f, config.forgettingSecs, old(Value()), now)
    {
      hide Fade, Forgetting;
      var elapsed := Seconds(now - lastObservation);
      if elapsed <= 0.0 {
        return;
      }
      var gamma := Forgetting(f, config.forgettingSecs, elapsed);
      alphaEv := Fade(alphaEv, gamma);
      betaEv := Fade(betaEv, gamma);
      evidence := Fade(evidence, gamma);
      lastObservation := now;
    }

    method ObserveFailure(f: Functions, now: int)
      modifies this
      ensures Value() == Failed(f, config.forgettingSecs, old(Value()), now)
    {
      DecayTo(f, now);
      failures := failures + 1;
      consecutiveFailures := consecutiveFailures + 1;
    }

    method FoldTtl(ttl: nat)
      modifies this
      ensures Value() == Anchored(old(Value()), ttl)
    {
      hide Smoothed, Abs, TtlSecs, Max;
      var t := TtlSecs(ttl);
      if observations == 0 {
        ttlEwma, ttlVolatility, priorTtl := t, 0.0, t;
      } else {
        ttlVolatility := Smoothed(ttlVolatility, Abs(t - ttlEwma));
        ttlEwma := Smoothed(ttlEwma, t);
        priorTtl := Max(ttlEwma, 1.0);
      }
    }

    method Learn(f: Functions, h: real, w: real, changed: bool, now: int)
      modifies this
      ensures Value() == Learned(f, config.forgettingSecs, old(Value()), h, w, changed, now)
    {
      hide Fade, Blend, Forgetting, Max;
      var gamma := Forgetting(f, config.forgettingSecs, h);
      alphaEv := Blend(alphaEv, gamma, w, if changed then 1.0 else 0.0);
      betaEv := Blend(betaEv, gamma, w, h);
      evidence := Max(betaEv, 0.0);
      lifetime := lifetime + Fade(w, h);
      observations := observations + 1;
      if changed {
        changes := changes + 1;
        lastChange := now;
      }
      consecutiveFailures := 0;
      lastObservation := now;
    }

    method Observe(f: Functions, interval: real, changed: bool, ttl: nat, now: int, trust: real)
      modifies this
      ensures Value() == Observed(f, config.forgettingSecs, old(Value()), interval, changed, ttl, now, trust)
    {
      hide Learned, Anchored, Clamp;
      var h := if interval > 0.0 then interval else 0.0;
      FoldTtl(ttl);
      Learn(f, h, Clamp(trust), changed, now);
    }
  }
}
