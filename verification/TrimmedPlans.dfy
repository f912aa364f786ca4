/** What the trimming of a dependency set does to the stale-serving decision (src/planner.rs,
    src/provenance.rs). */
module TrimmedPlans {
  import opened Octets
  import opened Risk
  import opened Provenance
  import opened Planner
  import opened Severity

  /** The plan for an expired entry whose answer has the dependencies `s`. */
  function PlanOn(cfg: Config, minEvidence: real, e: Entry, now: int, l: Ledger, ctx: StaleContext, s: Set): Plan {
    Planned(cfg, minEvidence, Query(Expired(e), now, Some(WithProvenance(ctx, s))), l).0
  }

  /** The class a context of class `base` has with the dependencies `s`. */
  function ClassWith(base: Consequence, s: Set): Consequence {
    match WorstOf(s.deps)
    case None => base
    case Some(w) => Worse(base, w)
  }

  /** `kept` is a trimmed form of `all`. */
  ghost predicate Trims(kept: Set, all: seq<Dep>, cap: nat) {
    Summarises(kept.deps, kept.residual, all, cap) && forall d :: d in kept.deps ==> d in all
  }

  /** Both ways of building a set trim what was added. */
  lemma BothTrim(ds: seq<Dep>, cap: nat)
    ensures Trims(PushAll(ds, cap), ds, OneOrMore(cap)) && Trims(FromDependencies(ds, cap), ds, OneOrMore(cap))
  {
    PushAllSummarises(ds, cap);
    FromDependenciesSummarises(ds, cap);
    BuildKeepsMembers(ds, cap);
    hide PushAll, FromDependencies, Summarises, SurvivesPushes;
    forall d | d in PushAll(ds, cap).deps ensures d in ds {
      PushedHas(ds, cap, d);
    }
  }

  // ---------------------------------------------------------------------------------------------
  // Only the class can differ

  lemma SameBound(kept: Set, all: seq<Dep>, cap: nat)
    requires Trims(kept, all, cap)
    ensures BoundOf(kept.deps, kept.residual) == BoundOf(all, 1.0) <= 1.0
  {
    hide Summarises;
    TrimmingIsSound(kept.deps, kept.residual, all, cap);
    BoundIs(all, 1.0, |all|);
    hide Bound;
  }

  lemma ClassDrops(base: Consequence, kept: Set, all: seq<Dep>, cap: nat)
    requires Trims(kept, all, cap)
    ensures Rank(ClassWith(base, kept)) <= Rank(ClassWith(base, Set(all, 1.0)))
  {
    hide Summarises, WorstOf;
    WorstIs(all);
    WorstIs(kept.deps);
    if kept.deps != [] {
      assert kept.deps[0] in all;
      PartSeverity(kept.deps, all, WorstOf(all).value);
    }
  }

  lemma OnlyTheClass(ctx: StaleContext, kept: Set, all: seq<Dep>, cap: nat)
    requires Trims(kept, all, cap)
    ensures var a, b := WithProvenance(ctx, kept), WithProvenance(ctx, Set(all, 1.0));
            && a.consequence == ClassWith(ctx.consequence, kept)
            && b.consequence == ClassWith(ctx.consequence, Set(all, 1.0))
            && a == b.(consequence := a.consequence) && Rank(a.consequence) <= Rank(b.consequence)
            && a.freshness == BoundOf(all, 1.0)
  {
    hide Trims, BoundOf, WorstOf;
    SameBound(kept, all, cap);
    ClassDrops(ctx.consequence, kept, all, cap);
  }

  // ---------------------------------------------------------------------------------------------
  // A stricter class

  lemma FloorQuotient(slack: real, j: real, k: real)
    requires 0.0 <= slack <= 1.0 && 1.0 <= j <= k
    ensures 1.0 - slack / j <= 1.0 - slack / k && 1.0 - 1.0 / j <= 1.0 - slack / j
  {
    var p, q, one := slack / j, slack / k, 1.0 / j;
    assert p * j == slack && q * k == slack && one * j == 1.0;
    assert q < 0.0 ==> q * k < 0.0;
    Scale(j, k, q);
    var gap, rest := p - q, one - p;
    assert gap * j == slack - q * j;
    assert gap < 0.0 ==> gap * j < 0.0;
    assert rest * j == 1.0 - slack;
    assert rest < 0.0 ==> rest * j < 0.0;
  }

  /** Stricter classes have higher floors; no configuration has one below 1 - 1 / coefficient. */
  lemma FloorGrows(cfg: Config, a: Consequence, b: Consequence)
    requires Rank(a) <= Rank(b) && a != Absolute
    ensures MinFreshness(cfg, a) <= MinFreshness(cfg, b)
    ensures 1.0 - 1.0 / Coefficient(a) <= MinFreshness(cfg, a)
  {
    var slack := 1.0 - Clamp(cfg.baseMinFreshness);
    FloorQuotient(slack, Coefficient(a), if b == Absolute then Coefficient(a) else Coefficient(b));
    SlackShrinks(1.0, Coefficient(a));
  }

  /** The risk of an answer of context `c`, of a class that has a coefficient. */
  function RiskOfClass(cfg: Config, c: StaleContext): real
    requires c.consequence != Absolute
  {
    Cost(Max(c.value, cfg.valueFloorMs), 1.0 - Clamp(c.freshness), Coefficient(c.consequence), Penalty(c.trust))
  }

  /** The gates a stale answer has to pass: class, horizon, floor and budget. */
  predicate Passes(cfg: Config, now: int, l: Ledger, c: StaleContext) {
    && c.consequence != Absolute && c.staleness <= HorizonSecs(c.consequence) as real
    && c.freshness >= MinFreshness(cfg, c.consequence)
    && 0.0 <= RiskOfClass(cfg, c) && Drained(cfg, l, now).debt + RiskOfClass(cfg, c) <= cfg.budgetCapacity
  }

  lemma ServedIffPasses(cfg: Config, minEvidence: real, e: Entry, now: int, l: Ledger, c: StaleContext)
    ensures var plan := Planned(cfg, minEvidence, Query(Expired(e), now, Some(c)), l).0;
            && (plan == ServeStale(true) || plan == Resolve)
            && (plan == ServeStale(true) <==> e.evidenceSecs >= minEvidence && Passes(cfg, now, l, c))
  {
    AllowedIsSafe(cfg, c.value, c.consequence, c.trust, c.freshness, c.staleness);
    if AssessStale(cfg, c).Allowed? {
      AllowedRisk(cfg, c.value, c.consequence, c.trust, c.freshness, c.staleness, 1.0 - Clamp(c.freshness));
    }
    hide Assess, MinFreshness, Drained, Cost, Coefficient, HorizonSecs;
  }

  lemma CostGrows(v: real, q: real, j: real, k: real, p: real)
    requires q >= 0.0 && 1.0 <= j <= k && p >= 1.0
    ensures Cost(v, q, k, p) >= 0.0 ==> 0.0 <= Cost(v, q, j, p) <= Cost(v, q, k, p)
  {
    var vq := v * q;
    if vq < 0.0 {
      StrictlyNegative(vq, k);
      StrictlyNegative(vq * k, p);
    } else {
      Scale(j, k, vq);
      Scale(0.0, j, vq);
      Scale(0.0, vq * j, p);
      Scale(vq * j, vq * k, p);
    }
  }

  lemma StrictlyNegative(x: real, k: real)
    requires x < 0.0 && k > 0.0
    ensures x * k < 0.0
  {
  }

  /** Whatever passes under a class passes under a milder one. */
  lemma MilderPasses(cfg: Config, now: int, l: Ledger, a: StaleContext, b: StaleContext)
    requires a == b.(consequence := a.consequence) && Rank(a.consequence) <= Rank(b.consequence)
    requires Passes(cfg, now, l, b)
    ensures Passes(cfg, now, l, a)
  {
    FloorGrows(cfg, a.consequence, b.consequence);
    CostGrows(Max(a.value, cfg.valueFloorMs), 1.0 - Clamp(a.freshness), Coefficient(a.consequence),
              Coefficient(b.consequence), Penalty(a.trust));
    hide MinFreshness, Drained, Cost, Clamp;
  }

  // ---------------------------------------------------------------------------------------------
  // The plan on a trimmed set

  /** A trimmed set never refuses what the whole set allows, and the two plans are the same exactly if
      whatever the trimmed set serves passes the gates of the class of the whole set. */
  lemma SamePlanWhen(cfg: Config, minEvidence: real, e: Entry, now: int, l: Ledger, ctx: StaleContext,
                     kept: Set, all: seq<Dep>, cap: nat)
    requires Trims(kept, all, cap)
    ensures var p, whole := PlanOn(cfg, minEvidence, e, now, l, ctx, kept), Set(all, 1.0);
            var q := PlanOn(cfg, minEvidence, e, now, l, ctx, whole);
            && (q.ServeStale? ==> p.ServeStale?)
            && (p == q <==> (p.ServeStale? ==> Passes(cfg, now, l, WithProvenance(ctx, whole))))
  {
    var a, b := WithProvenance(ctx, kept), WithProvenance(ctx, Set(all, 1.0));
    OnlyTheClass(ctx, kept, all, cap);
    ServedIffPasses(cfg, minEvidence, e, now, l, a);
    ServedIffPasses(cfg, minEvidence, e, now, l, b);
    hide Trims, WithProvenance, Planned, Passes;
    if Passes(cfg, now, l, b) {
      MilderPasses(cfg, now, l, a, b);
    }
  }

  /** Whatever the configuration, the entry, the ledger and the rest of the context. */
  ghost predicate AlwaysSame(base: Consequence, kept: Set, whole: Set) {
    forall cfg, minEvidence, e, now, l, ctx: StaleContext ::
      ctx.consequence == base ==>
        PlanOn(cfg, minEvidence, e, now, l, ctx, kept) == PlanOn(cfg, minEvidence, e, now, l, ctx, whole)
  }

  /** The configuration with the lowest floors, and a context at the end of the horizon of class `k`. */
  lemma ServedAtHorizon(base: Consequence, kept: Set, whole: Set, k: Consequence, w: Consequence)
    returns (cfg: Config, e: Entry, l: Ledger, ctx: StaleContext)
    requires k == ClassWith(base, kept) && w == ClassWith(base, whole) && Rank(k) < Rank(w)
    requires 1.0 >= BoundOf(kept.deps, kept.residual) >= 1.0 - 1.0 / Coefficient(k)
    ensures ctx.consequence == base
    ensures PlanOn(cfg, 0.0, e, 0, l, ctx, kept) == ServeStale(true) && PlanOn(cfg, 0.0, e, 0, l, ctx, whole) == Resolve
  {
    cfg := Config(0.0, 0.0, 0.0, 0.0);
    e := Entry(1, 0, 0.0, _ => 0.0);
    l := Ledger(0.0, 0, 0.0, 0, 0);
    ctx := StaleContext(base, ChainAnchored, 0.0, HorizonSecs(k) as real, 0.0);
    var a, b := WithProvenance(ctx, kept), WithProvenance(ctx, whole);
    hide BoundOf, WorstOf;
    assert a.consequence == k && b.consequence == w;
    SlackShrinks(1.0, Coefficient(k));
    assert MinFreshness(cfg, k) == 1.0 - 1.0 / Coefficient(k);
    assert RiskOfClass(cfg, a) == 0.0;
    assert Passes(cfg, 0, l, a) && !Passes(cfg, 0, l, b);
    ServedIffPasses(cfg, 0.0, e, 0, l, a);
    ServedIffPasses(cfg, 0.0, e, 0, l, b);
  }

  lemma BelowEveryFloor(cfg: Config, now: int, l: Ledger, c: StaleContext)
    requires c.consequence != Absolute && c.freshness < 1.0 - 1.0 / Coefficient(c.consequence)
    ensures !Passes(cfg, now, l, c)
  {
    FloorGrows(cfg, c.consequence, c.consequence);
  }

  /** Trimming makes no difference to any plan if and only if the class survives it, or the bound is below
      the floor that the class left over has under every configuration. */
  lemma AlwaysSameWhen(base: Consequence, kept: Set, all: seq<Dep>, cap: nat)
    requires Trims(kept, all, cap)
    ensures var k, w := ClassWith(base, kept), ClassWith(base, Set(all, 1.0));
            AlwaysSame(base, kept, Set(all, 1.0)) <==>
            k == w || (k != Absolute && BoundOf(all, 1.0) < 1.0 - 1.0 / Coefficient(k))
  {
    var k, whole := ClassWith(base, kept), Set(all, 1.0);
    var w := ClassWith(base, whole);
    SameBound(kept, all, cap);
    ClassDrops(base, kept, all, cap);
    hide Trims, BoundOf, WorstOf, ClassWith, PlanOn, Coefficient;
    if k == w || BoundOf(all, 1.0) < 1.0 - 1.0 / Coefficient(k) {
      forall cfg, minEvidence, e, now, l, ctx: StaleContext | ctx.consequence == base
        ensures PlanOn(cfg, minEvidence, e, now, l, ctx, kept) == PlanOn(cfg, minEvidence, e, now, l, ctx, whole)
      {
        SameHere(cfg, minEvidence, e, now, l, ctx, kept, all, cap);
      }
    } else {
      if Rank(k) == Rank(w) {
        SameRank(k, w);
      }
      var cfg, e, l, ctx := ServedAtHorizon(base, kept, whole, k, w);
    }
  }

  lemma SameHere(cfg: Config, minEvidence: real, e: Entry, now: int, l: Ledger, ctx: StaleContext,
                 kept: Set, all: seq<Dep>, cap: nat)
    requires Trims(kept, all, cap)
    requires var k := ClassWith(ctx.consequence, kept);
             k == ClassWith(ctx.consequence, Set(all, 1.0))
             || (k != Absolute && BoundOf(all, 1.0) < 1.0 - 1.0 / Coefficient(k))
    ensures PlanOn(cfg, minEvidence, e, now, l, ctx, kept) == PlanOn(cfg, minEvidence, e, now, l, ctx, Set(all, 1.0))
  {
    OnlyTheClass(ctx, kept, all, cap);
    var a := WithProvenance(ctx, kept);
    hide Trims, BoundOf, WorstOf, Planned, Passes, WithProvenance;
    if a.consequence != ClassWith(ctx.consequence, Set(all, 1.0)) {
      SamePlanWhen(cfg, minEvidence, e, now, l, ctx, kept, all, cap);
      ServedIffPasses(cfg, minEvidence, e, now, l, a);
      BelowEveryFloor(cfg, now, l, a);
    }
  }

  /** An answer served stale has no proof among all dependencies ever added, and its bound, the weakest of
      them all, is above the floor of the class that trimming left. */
  lemma ServedAboveKeptFloor(cfg: Config, minEvidence: real, e: Entry, now: int, l: Ledger,
                             ctx: StaleContext, kept: Set, all: seq<Dep>, cap: nat)
    requires Trims(kept, all, cap) && PlanOn(cfg, minEvidence, e, now, l, ctx, kept).ServeStale?
    ensures PermitsStale(all)
    ensures forall i :: 0 <= i < |all| ==> all[i].freshness >= MinFreshness(cfg, ClassWith(ctx.consequence, kept))
  {
    var a := WithProvenance(ctx, kept);
    ServedIffPasses(cfg, minEvidence, e, now, l, a);
    hide Planned, Summarises, MinFreshness, WorstOf, Bound, RiskOfClass, HorizonSecs;
    TrimmingIsSound(kept.deps, kept.residual, all, cap);
    ProofIsWorst(kept.deps);
  }

  /** The failure: an answer over a delegation, sixty seconds past its expiry. With room for both
      dependencies it is refused; with room for one it is served, although the delegation is past its
      horizon of thirty seconds and below the floor of its class. */
  lemma TrimmedDelegationIsServed(e: Entry, now: int)
    requires e.evidenceSecs >= 0.0
    ensures var all := [Dep(Answer, 0, 0.99), Dep(Delegation, 1, 0.9905)];
            var cfg, l := Config(0.95, 0.0, 0.0, 1000.0), Ledger(0.0, now, 0.0, 0, 0);
            var ctx := StaleContext(Low, ChainAnchored, 1.0, 60.0, 100.0);
            && PlanOn(cfg, 0.0, e, now, l, ctx, PushAll(all, 1)) == ServeStale(true)
            && PlanOn(cfg, 0.0, e, now, l, ctx, PushAll(all, 2)) == Resolve
            && all[1].freshness < MinFreshness(cfg, Critical)
  {
    hide *;
    ServedThenRefused(Dep(Answer, 0, 0.99), Dep(Delegation, 1, 0.9905), Config(0.95, 0.0, 0.0, 1000.0), e, now,
                      Ledger(0.0, now, 0.0, 0, 0), StaleContext(Low, ChainAnchored, 1.0, 60.0, 100.0));
  }

  lemma ServedThenRefused(a: Dep, b: Dep, cfg: Config, e: Entry, now: int, l: Ledger, ctx: StaleContext)
    requires a.role == Answer && b.role == Delegation && a.freshness == 0.99 && b.freshness == 0.9905
    requires cfg == Config(0.95, 0.0, 0.0, 1000.0) && l == Ledger(0.0, now, 0.0, 0, 0) && e.evidenceSecs >= 0.0
    requires ctx == StaleContext(Low, ChainAnchored, 1.0, 60.0, 100.0)
    ensures PlanOn(cfg, 0.0, e, now, l, ctx, PushAll([a, b], 1)) == ServeStale(true)
    ensures PlanOn(cfg, 0.0, e, now, l, ctx, PushAll([a, b], 2)) == Resolve
    ensures b.freshness < MinFreshness(cfg, Critical)
  {
    hide *;
    TrimmingHidesSeverity(a, b);
    TwoContexts(a, b, ctx);
    TwoFloors(cfg);
    LowPasses(cfg, now, l, ctx.(freshness := a.freshness));
    BelowFloor(cfg, now, l, ctx.(freshness := a.freshness, consequence := Critical));
    PlanOnIs(cfg, 0.0, e, now, l, ctx, Set([a], b.freshness), ctx.(freshness := a.freshness));
    PlanOnIs(cfg, 0.0, e, now, l, ctx, Set([a, b], 1.0), ctx.(freshness := a.freshness, consequence := Critical));
  }

  lemma PlanOnIs(cfg: Config, minEvidence: real, e: Entry, now: int, l: Ledger, ctx: StaleContext,
                 s: Set, c: StaleContext)
    requires WithProvenance(ctx, s) == c
    ensures var plan := PlanOn(cfg, minEvidence, e, now, l, ctx, s);
            && (plan == ServeStale(true) || plan == Resolve)
            && (plan == ServeStale(true) <==> e.evidenceSecs >= minEvidence && Passes(cfg, now, l, c))
  {
    hide Planned, Passes, WithProvenance;
    ServedIffPasses(cfg, minEvidence, e, now, l, c);
  }

  lemma TwoContexts(a: Dep, b: Dep, ctx: StaleContext)
    requires a.role == Answer && b.role == Delegation && a.freshness < b.freshness && ctx.consequence == Low
    ensures WithProvenance(ctx, Set([a], b.freshness)) == ctx.(freshness := a.freshness)
    ensures WithProvenance(ctx, Set([a, b], 1.0)) == ctx.(freshness := a.freshness, consequence := Critical)
  {
    TrimmingHidesSeverity(a, b);
    TwoBounds(a, b);
    hide WorstOf, BoundOf, PushAll;
  }

  lemma TwoFloors(cfg: Config)
    requires cfg.baseMinFreshness == 0.95
    ensures MinFreshness(cfg, Low) == 0.95 && MinFreshness(cfg, Critical) == 0.9995
  {
  }

  lemma DelegationRisk(cfg: Config, c: StaleContext)
    requires c.consequence == Low && c.trust == ChainAnchored && c.value == 100.0 && c.freshness == 0.99
    requires cfg.valueFloorMs == 0.0
    ensures RiskOfClass(cfg, c) == 1.0
  {
    assert Cost(100.0, 0.01, 1.0, 1.0) == 1.0;
  }

  lemma LowPasses(cfg: Config, now: int, l: Ledger, c: StaleContext)
    requires c.consequence == Low && c.trust == ChainAnchored && c.value == 100.0 && c.freshness == 0.99
    requires c.staleness <= 86400.0 && cfg.valueFloorMs == 0.0 && cfg.budgetCapacity >= 1.0
    requires MinFreshness(cfg, Low) <= 0.99 && l.debt == 0.0 && now <= l.clock
    ensures Passes(cfg, now, l, c)
  {
    DelegationRisk(cfg, c);
    NoTimePassed(cfg, l, now);
    hide MinFreshness, RiskOfClass, Drained;
  }

  lemma BelowFloor(cfg: Config, now: int, l: Ledger, c: StaleContext)
    requires c.freshness < MinFreshness(cfg, c.consequence)
    ensures !Passes(cfg, now, l, c)
  {
    hide MinFreshness;
  }

  lemma NoTimePassed(cfg: Config, l: Ledger, now: int)
    requires now <= l.clock
    ensures Drained(cfg, l, now) == l
  {
    hide Refill;
  }

  lemma TwoBounds(a: Dep, b: Dep)
    requires a.freshness < b.freshness
    ensures BoundOf([a], b.freshness) == a.freshness && BoundOf([a, b], 1.0) == a.freshness
  {
    assert Bound([a], b.freshness, 1) == Min(Bound([a], b.freshness, 0), a.freshness);
    assert Bound([a, b], 1.0, 1) == Min(Bound([a, b], 1.0, 0), a.freshness);
    assert Bound([a, b], 1.0, 2) == Min(Bound([a, b], 1.0, 1), b.freshness);
  }
}
