/** What a history of observations leaves in the forgetting posterior, from the events alone
    (src/hazard.rs). */
module Evidence {
  import opened Octets
  import opened Risk
  import opened Hazard

  /** The weight of an observation: its trust, brought into 0..=1. */
  function WeightOf(e: Event): real
    requires e.Observe?
  {
    if e.trust < 0.0 then 0.0 else if e.trust > 1.0 then 1.0 else e.trust
  }

  /** The seconds an observation covers. */
  function ExposureOf(e: Event): real
    requires e.Observe?
  {
    if e.interval > 0.0 then e.interval else 0.0
  }

  /** What an event says of changes: its weight if it saw one. */
  function ChangeSeen(e: Event): real {
    if e.Observe? && e.changed then WeightOf(e) else 0.0
  }

  /** What an event says of time without change: the seconds it covers, by its weight. */
  function ExposureSeen(e: Event): real {
    if e.Observe? then WeightOf(e) * ExposureOf(e) else 0.0
  }

  /** The model's clock before event `n`: an observation sets it, anything else can only move it on. */
  function ClockAt(es: seq<Event>, start: int, n: nat): int
    requires n <= |es|
  {
    if n == 0 then start
    else
      var c := ClockAt(es, start, n - 1);
      if es[n - 1].Observe? || es[n - 1].now > c then es[n - 1].now else c
  }

  /** The seconds by which event `n` ages the evidence. */
  function AgedBy(es: seq<Event>, start: int, n: nat): real
    requires n < |es|
  {
    if es[n].Observe? then ExposureOf(es[n])
    else if es[n].now > ClockAt(es, start, n) then (es[n].now - ClockAt(es, start, n)) as real / 1000000000.0
    else 0.0
  }

  /** The share of earlier evidence that event `n` leaves. */
  function Share(f: Functions, tau: real, es: seq<Event>, start: int, n: nat): real
    requires tau > 0.0 && n < |es|
  {
    if es[n].Observe? || AgedBy(es, start, n) > 0.0 then f.exp(-AgedBy(es, start, n) / tau) else 1.0
  }

  /** What the events from `i` to `n` leave of what was known before them. */
  function Left(f: Functions, tau: real, es: seq<Event>, start: int, i: nat, n: nat): real
    requires tau > 0.0 && i <= n <= |es|
  {
    if i == n then 1.0 else Left(f, tau, es, start, i, n - 1) * Share(f, tau, es, start, n - 1)
  }

  /** The first `k` events, each by what it says and what is left of that before event `n`. */
  function Gathered(f: Functions, tau: real, es: seq<Event>, start: int, says: Event -> real, k: nat, n: nat): real
    requires tau > 0.0 && k <= n <= |es|
  {
    if k == 0 then 0.0
    else Gathered(f, tau, es, start, says, k - 1, n) + says(es[k - 1]) * Left(f, tau, es, start, k, n)
  }

  lemma Distribute(a: real, b: real, c: real, s: real)
    ensures (a + b * c) * s == a * s + b * (c * s)
  {
  }

  lemma {:induction false} GatheredFades(f: Functions, tau: real, es: seq<Event>, start: int, says: Event -> real,
                                         k: nat, n: nat)
    requires tau > 0.0 && k <= n < |es|
    ensures Gathered(f, tau, es, start, says, k, n + 1)
            == Gathered(f, tau, es, start, says, k, n) * Share(f, tau, es, start, n)
  {
    if k > 0 {
      GatheredFades(f, tau, es, start, says, k - 1, n);
      var l, s := Left(f, tau, es, start, k, n), Share(f, tau, es, start, n);
      assert Left(f, tau, es, start, k, n + 1) == l * s;
      hide Share, Left;
      Distribute(Gathered(f, tau, es, start, says, k - 1, n), says(es[k - 1]), l, s);
    }
  }

  function Carried(before: real, share: real, said: real): real {
    before * share + said
  }

  lemma OneMoreEvent(f: Functions, tau: real, es: seq<Event>, start: int, says: Event -> real, n: nat)
    requires tau > 0.0 && n < |es|
    ensures Gathered(f, tau, es, start, says, n + 1, n + 1)
            == Carried(Gathered(f, tau, es, start, says, n, n), Share(f, tau, es, start, n), says(es[n]))
  {
    GatheredFades(f, tau, es, start, says, n, n);
    assert Left(f, tau, es, start, n + 1, n + 1) == 1.0;
    hide Share;
  }

  /** What one event does to the evidence. */
  lemma StepGathers(f: Functions, tau: real, es: seq<Event>, start: int, n: nat, m: Model, m': Model)
    requires tau > 0.0 && n < |es| && m.lastObservation == ClockAt(es, start, n) && m' == After(f, tau, m, es[n])
    ensures m'.lastObservation == ClockAt(es, start, n + 1)
    ensures m'.alphaEv == Carried(m.alphaEv, Share(f, tau, es, start, n), ChangeSeen(es[n]))
    ensures m'.betaEv == Carried(m.betaEv, Share(f, tau, es, start, n), ExposureSeen(es[n]))
  {
    if es[n].Observe? {
      assert Max(es[n].interval, 0.0) == AgedBy(es, start, n);
      assert Clamp(es[n].trust) == WeightOf(es[n]);
    } else {
      assert Seconds(es[n].now - m.lastObservation) > 0.0 <==> es[n].now > m.lastObservation;
    }
  }

  /** After every history, the evidence for changes is the weight of every change seen, and the exposure
      evidence every interval seen by its weight, each times what the events after it left. */
  lemma {:induction false} EvidenceIs(f: Functions, tau: real, es: seq<Event>, ms: seq<Model>, ttl: nat, start: int,
                                      n: nat)
    requires tau > 0.0 && IsHistory(f, tau, es, ms, ttl, start) && n <= |es|
    ensures ms[n].lastObservation == ClockAt(es, start, n)
    ensures ms[n].alphaEv == Gathered(f, tau, es, start, ChangeSeen, n, n)
    ensures ms[n].betaEv == Gathered(f, tau, es, start, ExposureSeen, n, n)
  {
    if n == 0 {
      Unseen(f, tau, es, ms, ttl, start);
    } else {
      hide *;
      HistoryStep(f, tau, es, ms, ttl, start, n - 1);
      EvidenceIs(f, tau, es, ms, ttl, start, n - 1);
      StepGathers(f, tau, es, start, n - 1, ms[n - 1], ms[n]);
      OneMoreEvent(f, tau, es, start, ChangeSeen, n - 1);
      OneMoreEvent(f, tau, es, start, ExposureSeen, n - 1);
    }
  }

  lemma Unseen(f: Functions, tau: real, es: seq<Event>, ms: seq<Model>, ttl: nat, start: int)
    requires tau > 0.0 && IsHistory(f, tau, es, ms, ttl, start)
    ensures ms[0].lastObservation == ClockAt(es, start, 0) && ms[0].alphaEv == ms[0].betaEv == 0.0
    ensures forall says :: Gathered(f, tau, es, start, says, 0, 0) == 0.0
  {
  }

  lemma HistoryStep(f: Functions, tau: real, es: seq<Event>, ms: seq<Model>, ttl: nat, start: int, n: nat)
    requires IsHistory(f, tau, es, ms, ttl, start) && n < |es|
    ensures |ms| == |es| + 1 && ms[n + 1] == After(f, tau, ms[n], es[n])
  {
    hide After;
  }

  lemma ShareBounds(f: Functions, tau: real, es: seq<Event>, start: int, n: nat)
    requires ExpFacts(f.exp) && tau > 0.0 && n < |es|
    ensures 0.0 < Share(f, tau, es, start, n) <= 1.0
  {
    var h := AgedBy(es, start, n);
    hide AgedBy;
    if es[n].Observe? || h > 0.0 {
      assert h >= 0.0 by {
        AgedIsPositive(es, start, n);
      }
      var g := Forgetting(f, tau, h);
      assert Share(f, tau, es, start, n) == g;
      ForgettingBounds(f, tau, h);
      hide *;
      AtMostOne(g, tau + h, tau);
    }
  }

  lemma AgedIsPositive(es: seq<Event>, start: int, n: nat)
    requires n < |es|
    ensures AgedBy(es, start, n) >= 0.0
  {
  }

  lemma CarriedBounds(before: real, share: real, said: real)
    requires before >= 0.0 && 0.0 < share <= 1.0
    ensures said <= Carried(before, share, said) <= before + said
  {
    Scale(0.0, before, share);
    Scale(share, 1.0, before);
    assert before * 1.0 == before && before * 0.0 == 0.0;
    assert 0.0 <= before * share <= before;
  }

  lemma {:induction false} ChangesNotNegative(f: Functions, tau: real, es: seq<Event>, start: int, n: nat)
    requires ExpFacts(f.exp) && tau > 0.0 && n <= |es|
    ensures Gathered(f, tau, es, start, ChangeSeen, n, n) >= 0.0
  {
    if n > 0 {
      ChangesNotNegative(f, tau, es, start, n - 1);
      OneMoreEvent(f, tau, es, start, ChangeSeen, n - 1);
      ShareBounds(f, tau, es, start, n - 1);
      hide Gathered, Share, ExpFacts;
      CarriedBounds(Gathered(f, tau, es, start, ChangeSeen, n - 1, n - 1), Share(f, tau, es, start, n - 1),
                    ChangeSeen(es[n - 1]));
    }
  }

  /** Right after a change of weight `w` the evidence for changes is at least `w`; an event that saw none
      never raises it. */
  lemma ChangesCount(f: Functions, tau: real, es: seq<Event>, ms: seq<Model>, ttl: nat, start: int, n: nat)
    requires ExpFacts(f.exp) && tau > 0.0 && IsHistory(f, tau, es, ms, ttl, start) && n < |es|
    ensures es[n].Observe? && es[n].changed ==> ms[n + 1].alphaEv >= WeightOf(es[n])
    ensures !(es[n].Observe? && es[n].changed) ==> 0.0 <= ms[n + 1].alphaEv <= ms[n].alphaEv
  {
    var g, share := Gathered(f, tau, es, start, ChangeSeen, n, n), Share(f, tau, es, start, n);
    assert !(es[n].Observe? && es[n].changed) ==> ChangeSeen(es[n]) == 0.0;
    assert es[n].Observe? && es[n].changed ==> ChangeSeen(es[n]) == WeightOf(es[n]);
    hide Gathered, Share, ChangeSeen, IsHistory;
    EvidenceIs(f, tau, es, ms, ttl, start, n);
    EvidenceIs(f, tau, es, ms, ttl, start, n + 1);
    ChangesNotNegative(f, tau, es, start, n);
    OneMoreEvent(f, tau, es, start, ChangeSeen, n);
    ShareBounds(f, tau, es, start, n);
    hide *;
    CarriedBounds(g, share, ChangeSeen(es[n]));
  }

  lemma {:induction false} NothingGathered(f: Functions, tau: real, es: seq<Event>, start: int, says: Event -> real,
                                           k: nat, n: nat)
    requires tau > 0.0 && k <= n <= |es| && forall i :: 0 <= i < k ==> says(es[i]) == 0.0
    ensures Gathered(f, tau, es, start, says, k, n) == 0.0
  {
    if k > 0 {
      NothingGathered(f, tau, es, start, says, k - 1, n);
      hide Left;
    }
  }

  /** Without a change seen there is no evidence for changes, whatever else happened. */
  lemma NoChangeNoEvidence(f: Functions, tau: real, es: seq<Event>, ms: seq<Model>, ttl: nat, start: int, n: nat)
    requires tau > 0.0 && IsHistory(f, tau, es, ms, ttl, start) && n <= |es|
    requires forall i :: 0 <= i < n && es[i].Observe? ==> !es[i].changed
    ensures ms[n].alphaEv == 0.0
  {
    forall i | 0 <= i < n ensures ChangeSeen(es[i]) == 0.0 {
    }
    hide IsHistory, Gathered, ChangeSeen;
    EvidenceIs(f, tau, es, ms, ttl, start, n);
    NothingGathered(f, tau, es, start, ChangeSeen, n, n);
  }

  // ---------------------------------------------------------------------------------------------
  // The posterior

  /** The exposure of a prior worth `a` changes, in `a` times the anchor, and more exposure. */
  function OnTopOf(a: real, anchor: real, exposure: real): real {
    a * anchor + exposure
  }

  /** The posterior of a history is the prior of the configuration and what the events say. */
  lemma PosteriorIs(f: Functions, tau: real, c: Tuning, es: seq<Event>, ms: seq<Model>, ttl: nat, start: int, n: nat)
    requires tau > 0.0 && IsHistory(f, tau, es, ms, ttl, start) && n <= |es|
    ensures Shape(c) == if c.priorShape < 0.000000001 then 0.000000001 else c.priorShape
    ensures Posterior(c, ms[n]).0 == Shape(c) + Gathered(f, tau, es, start, ChangeSeen, n, n)
    ensures Posterior(c, ms[n]).1
            == OnTopOf(Shape(c), ms[n].priorTtl, Gathered(f, tau, es, start, ExposureSeen, n, n))
  {
    ShapeIs(c);
    hide Gathered;
    EvidenceIs(f, tau, es, ms, ttl, start, n);
    hide *;
    PosteriorOf(c, ms[n], Shape(c));
  }

  lemma ShapeIs(c: Tuning)
    ensures Shape(c) == if c.priorShape < 0.000000001 then 0.000000001 else c.priorShape
  {
  }

  lemma PosteriorOf(c: Tuning, m: Model, a: real)
    requires a == Shape(c)
    ensures Posterior(c, m).0 == a + m.alphaEv
    ensures Posterior(c, m).1 == OnTopOf(a, m.priorTtl, m.betaEv)
  {
  }

  /** The number of observations among the first `n` events. */
  function Observations(es: seq<Event>, n: nat): nat
    requires n <= |es|
  {
    if n == 0 then 0 else Observations(es, n - 1) + if es[n - 1].Observe? then 1 else 0
  }

  function Anchor(ttl: nat): real {
    if ttl == 0 then 1.0 else ttl as real
  }

  function Distance(a: real, b: real): real {
    if a < b then b - a else a - b
  }

  /** The anchor is the TTL the model was made with until the first observation, which replaces it; each later
      one moves it a fifth of the way to the TTL observed, and the volatility as far to the distance between the
      two. */
  lemma {:induction false} AnchorMoves(f: Functions, tau: real, es: seq<Event>, ms: seq<Model>, ttl: nat, start: int,
                                       n: nat)
    requires IsHistory(f, tau, es, ms, ttl, start) && n <= |es|
    ensures ms[n].observations == Observations(es, n) && ms[n].priorTtl == ms[n].ttlEwma >= 1.0
    ensures Observations(es, n) == 0 ==> ms[n].priorTtl == Anchor(ttl) && ms[n].ttlVolatility == 0.0
    ensures n > 0 && !es[n - 1].Observe? ==>
              ms[n].priorTtl == ms[n - 1].priorTtl && ms[n].ttlVolatility == ms[n - 1].ttlVolatility
    ensures n > 0 && es[n - 1].Observe? ==>
              var m, m', t := ms[n - 1], ms[n], Anchor(es[n - 1].ttl);
              if Observations(es, n - 1) == 0 then m'.priorTtl == t && m'.ttlVolatility == 0.0
              else && 5.0 * (m'.priorTtl - m.priorTtl) == t - m.priorTtl
                   && 5.0 * (m'.ttlVolatility - m.ttlVolatility) == Distance(t, m.priorTtl) - m.ttlVolatility
  {
    if n > 0 {
      AnchorMoves(f, tau, es, ms, ttl, start, n - 1);
      HistoryStep(f, tau, es, ms, ttl, start, n - 1);
      hide IsHistory, Forgetting, Blend, Fade;
    }
  }

  /** How many of the first `n` events are counted. */
  function Tally(es: seq<Event>, counts: Event -> bool, n: nat): nat
    requires n <= |es|
  {
    if n == 0 then 0 else Tally(es, counts, n - 1) + if counts(es[n - 1]) then 1 else 0
  }

  predicate IsObserve(e: Event) { e.Observe? }

  predicate IsChange(e: Event) { e.Observe? && e.changed }

  predicate IsFailure(e: Event) { e.Failure? }

  /** The failures since the last observation. */
  function FailuresSince(es: seq<Event>, n: nat): nat
    requires n <= |es|
  {
    if n == 0 || es[n - 1].Observe? then 0 else FailuresSince(es, n - 1) + if es[n - 1].Failure? then 1 else 0
  }

  lemma CountersStep(f: Functions, tau: real, m: Model, e: Event, m': Model)
    requires m' == After(f, tau, m, e)
    ensures m'.observations == m.observations + (if IsObserve(e) then 1 else 0)
    ensures m'.changes == m.changes + (if IsChange(e) then 1 else 0)
    ensures m'.failures == m.failures + (if IsFailure(e) then 1 else 0)
    ensures m'.consecutiveFailures == if IsObserve(e) then 0 else m.consecutiveFailures + if IsFailure(e) then 1 else 0
  {
    hide Forgetting, Blend, Fade, Abs, Smoothed, Clamp;
  }

  /** The counters hold what they are named for; a failure is never an observation. */
  lemma {:induction false} CountersAre(f: Functions, tau: real, es: seq<Event>, ms: seq<Model>, ttl: nat, start: int,
                                       n: nat)
    requires IsHistory(f, tau, es, ms, ttl, start) && n <= |es|
    ensures ms[n].observations == Tally(es, IsObserve, n) && ms[n].changes == Tally(es, IsChange, n)
    ensures ms[n].failures == Tally(es, IsFailure, n) && ms[n].consecutiveFailures == FailuresSince(es, n)
  {
    if n > 0 {
      CountersAre(f, tau, es, ms, ttl, start, n - 1);
      HistoryStep(f, tau, es, ms, ttl, start, n - 1);
      hide IsHistory, After;
      CountersStep(f, tau, ms[n - 1], es[n - 1], ms[n]);
    }
  }

  /** All the exposure ever seen, without forgetting. */
  function EverSeen(es: seq<Event>, n: nat): real
    requires n <= |es|
  {
    if n == 0 then 0.0 else EverSeen(es, n - 1) + ExposureSeen(es[n - 1])
  }

  /** When a change was last seen, or the model was made. */
  function ChangedAt(es: seq<Event>, start: int, n: nat): int
    requires n <= |es|
  {
    if n == 0 then start else if IsChange(es[n - 1]) then es[n - 1].now else ChangedAt(es, start, n - 1)
  }

  lemma LifetimeStep(f: Functions, tau: real, m: Model, e: Event, m': Model)
    requires m' == After(f, tau, m, e)
    ensures m'.lifetime == m.lifetime + ExposureSeen(e)
    ensures m'.lastChange == if IsChange(e) then e.now else m.lastChange
  {
    hide Forgetting, Blend, Abs, Smoothed;
    if e.Observe? {
      assert Clamp(e.trust) == WeightOf(e) && Max(e.interval, 0.0) == ExposureOf(e);
    }
  }

  lemma {:induction false} LifetimeIs(f: Functions, tau: real, es: seq<Event>, ms: seq<Model>, ttl: nat, start: int,
                                      n: nat)
    requires IsHistory(f, tau, es, ms, ttl, start) && n <= |es|
    ensures ms[n].lifetime == EverSeen(es, n) && ms[n].lastChange == ChangedAt(es, start, n)
  {
    if n > 0 {
      LifetimeIs(f, tau, es, ms, ttl, start, n - 1);
      HistoryStep(f, tau, es, ms, ttl, start, n - 1);
      hide IsHistory, After, ExposureSeen, IsChange;
      LifetimeStep(f, tau, ms[n - 1], es[n - 1], ms[n]);
    }
  }

  /** Sanitising keeps every value that is in range and brings any other to the nearer end of its range. */
  lemma SanitisedIsNearest(c: Tuning)
    ensures Nearest(c.priorShape, 0.000001, 1000000.0, Sanitised(c).priorShape)
    ensures Nearest(c.confidence, 0.000000001, 0.999999999, Sanitised(c).confidence)
    ensures Nearest(c.forgettingSecs, 1.0, 1000000000.0, Sanitised(c).forgettingSecs)
  {
  }

  /** `y` is the number from `lo` to `hi` that is nearest to `x`. */
  predicate Nearest(x: real, lo: real, hi: real, y: real) {
    lo <= y <= hi && (lo <= x <= hi ==> y == x) && (x < lo ==> y == lo) && (x > hi ==> y == hi)
  }

  // ---------------------------------------------------------------------------------------------
  // Freshness

  lemma SurvivalIs(f: Functions, rate: real, secs: real)
    requires ExpFacts(f.exp) && rate > 0.0 && secs > 0.0
    ensures Survival(f, Some(rate), secs) == if rate * secs >= 745.0 then 0.0 else f.exp(-rate * secs)
  {
    var x := -rate * secs;
    Positive(rate, secs);
    assert x == -(rate * secs);
    if x > -745.0 {
      var e := f.exp(x);
      assert 0.0 < e && e * (1.0 - x) <= 1.0;
      AtMostOne(e, 1.0 - x, 1.0);
    }
  }

  /** The logarithm of the Chernoff bound on the chance that a Gamma variable of this shape and rate exceeds `x`. */
  function Chernoff(ln: real -> real, alpha: real, beta: real, x: real): real
    requires alpha > 0.0
  {
    alpha - beta * x + alpha * ln(beta * x / alpha)
  }

  /** The conservative freshness is the chance of no change at a rate above the posterior mean, at which the
      Chernoff bound on a Gamma tail has fallen to what the confidence leaves. */
  lemma FreshnessIs(f: Functions, c: Tuning, m: Model, secs: real, alpha: real, beta: real, x: real)
    requires ExpFacts(f.exp) && LnFacts(f.ln) && Sane(m) && secs > 0.0
    requires 0.000000000001 <= c.confidence <= 0.999999999999
    requires (alpha, beta) == Posterior(c, m) && RateBound(f, c, m) == Some(x)
    ensures alpha > 0.0 && beta > 0.0 && x > alpha / beta
    ensures Chernoff(f.ln, alpha, beta, x) <= f.ln(1.0 - c.confidence)
    ensures FreshnessLcb(f, c, m, secs) == if x * secs >= 745.0 then 0.0 else f.exp(-x * secs)
  {
    var d := 1.0 - c.confidence;
    assert RateBound(f, c, m) == GammaBound(f.ln, alpha, beta, d) && 0.0 < d < 1.0;
    assert FreshnessLcb(f, c, m, secs) == Survival(f, Some(x), secs);
    PosteriorIsPositive(c, m);
    hide *;
    BoundMeans(f.ln, alpha, beta, d, x);
    SurvivalIs(f, x, secs);
  }

  lemma BoundMeans(ln: real -> real, alpha: real, beta: real, delta: real, x: real)
    requires LnFacts(ln) && alpha > 0.0 && beta > 0.0 && 0.0 < delta < 1.0
    requires GammaBound(ln, alpha, beta, delta) == Some(x)
    ensures x > alpha / beta > 0.0 && Chernoff(ln, alpha, beta, x) <= ln(delta)
  {
    hide GammaBound, LnFacts, Bracket, Bisected, Narrowed;
    var l, hi := BoundIsSafe(ln, alpha, beta, delta, x, alpha / beta);
    assert ExcessAt(ln, alpha, beta, delta, x) <= 0.0;
  }

  lemma PosteriorIsPositive(c: Tuning, m: Model)
    requires Sane(m)
    ensures Posterior(c, m).0 > 0.0 && Posterior(c, m).1 > 0.0
  {
    Positive(Shape(c), m.priorTtl);
  }

  /** The exponential does not fall. */
  ghost predicate ExpGrows(exp: real -> real) {
    forall x, y :: x <= y <= 0.0 ==> exp(x) <= exp(y)
  }

  /** The model function that satisfies the other facts satisfies this one. */
  lemma GrowthIsConsistent()
    ensures ExpGrows(ModelExp)
  {
    forall x, y | x <= y <= 0.0 ensures ModelExp(x) <= ModelExp(y) {
      Reciprocal(x);
      Reciprocal(y);
      var p, q := 1.0 / (1.0 - x), 1.0 / (1.0 - y);
      Scale(1.0 - y, 1.0 - x, p);
      if p > q {
        StrictScale(q, p, 1.0 - y);
      }
    }
  }

  /** Further past its expiry an answer is never fresher. */
  lemma FreshnessFalls(f: Functions, c: Tuning, m: Model, secs: real, secs': real)
    requires ExpFacts(f.exp) && LnFacts(f.ln) && ExpGrows(f.exp) && Sane(m) && secs <= secs'
    ensures FreshnessLcb(f, c, m, secs') <= FreshnessLcb(f, c, m, secs)
  {
    var bound := RateBound(f, c, m);
    if secs' > 0.0 && bound.Some? {
      RateIsPositive(f, c, m, bound.value);
      hide RateBound, LnFacts;
      SurvivalFalls(f, bound.value, secs, secs');
    }
  }

  lemma RateIsPositive(f: Functions, c: Tuning, m: Model, x: real)
    requires LnFacts(f.ln) && Sane(m) && RateBound(f, c, m) == Some(x)
    ensures x > 0.0
  {
    PosteriorIsPositive(c, m);
    hide Posterior, GammaBound, LnFacts, Sane;
    BoundMeans(f.ln, Posterior(c, m).0, Posterior(c, m).1, Tail(c), x);
  }

  lemma SurvivalFalls(f: Functions, rate: real, secs: real, secs': real)
    requires ExpFacts(f.exp) && ExpGrows(f.exp) && rate > 0.0 && secs <= secs' && secs' > 0.0
    ensures Survival(f, Some(rate), secs') <= if secs <= 0.0 then 1.0 else Survival(f, Some(rate), secs)
  {
    if secs > 0.0 {
      SurvivalIs(f, rate, secs);
      SurvivalIs(f, rate, secs');
      Scale(secs, secs', rate);
      Positive(rate, secs);
      assert -rate * secs' <= -rate * secs <= 0.0;
      hide ExpFacts, Survival;
    }
  }
}
