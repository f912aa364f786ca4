/** When an expired entry is served stale, in terms of the entry, the clock and the ledger alone
    (src/planner.rs, src/risk.rs). */
module EntryPlans {
  import opened Octets
  import opened Risk
  import opened Planner
  import opened Provenance
  import Severity

  /** How long past its expiry data of a class may be served, in nanoseconds, and how much more certain of it
      the resolver has to be than of ordinary data. */
  datatype Terms = Terms(horizonNs: int, weight: real)

  /** The terms of each class, as the policy documents them; there are none for key material and proofs. */
  function TermsOf(c: Consequence): Option<Terms> {
    match c
    case Low => Some(Terms(86_400_000_000_000, 1.0))
    case Medium => Some(Terms(3_600_000_000_000, 5.0))
    case High => Some(Terms(300_000_000_000, 25.0))
    case Critical => Some(Terms(30_000_000_000, 100.0))
    case Absolute => None
  }

  function WeightOf(t: Trust): real {
    match t
    case ChainAnchored => 1.0
    case CryptoVerified => 2.0
    case Unverified => 5.0
    case Indeterminate => 10.0
  }

  /** The terms by record type: DS, RRSIG, NSEC, DNSKEY and NSEC3 have none; NS is a delegation; MX, SRV,
      TLSA, SVCB, HTTPS and CAA name services; CNAME and DNAME are aliases; anything else is ordinary. */
  function TermsOfType(rrType: nat): Option<Terms> {
    if rrType == 43 || 46 <= rrType <= 48 || rrType == 50 then None
    else if rrType == 2 then TermsOf(Critical)
    else if rrType == 15 || rrType == 33 || rrType == 52 || rrType == 64 || rrType == 65 || rrType == 257 then
      TermsOf(High)
    else if rrType == 5 || rrType == 39 then TermsOf(Medium)
    else TermsOf(Low)
  }

  /** The least freshness of data of this weight: all but a `weight`-th part of the slack of ordinary data. */
  function FloorOf(cfg: Config, weight: real): real
    requires weight > 0.0
  {
    1.0 - (1.0 - Clamp(cfg.baseMinFreshness)) / weight
  }

  /** The debt that is left at `now`. */
  function DebtAt(cfg: Config, l: Ledger, now: int): real {
    if now <= l.clock then l.debt
    else Max(l.debt - cfg.budgetPerSec * ((now - l.clock) as real / 1000000000.0), 0.0)
  }

  /** The expected harm: what is at stake, times the chance that it is stale, times both weights. */
  function HarmOf(cfg: Config, value: real, freshness: real, weight: real, trust: Trust): real {
    Max(value, cfg.valueFloorMs) * (1.0 - Clamp(freshness)) * weight * WeightOf(trust)
  }

  /** The ledger takes this harm on at `now`. */
  ghost predicate Affordable(cfg: Config, l: Ledger, now: int, harm: real) {
    0.0 <= harm && DebtAt(cfg, l, now) + harm <= cfg.budgetCapacity
  }

  // ---------------------------------------------------------------------------------------------
  // The decision

  lemma TermsAre(c: Consequence)
    ensures c == Absolute <==> TermsOf(c).None?
    ensures c != Absolute ==> var t := TermsOf(c).value;
                              t.horizonNs == HorizonSecs(c) * 1000000000 && t.weight == Coefficient(c)
  {
  }

  lemma FloorIs(cfg: Config, c: Consequence)
    requires c != Absolute
    ensures MinFreshness(cfg, c) == FloorOf(cfg, Coefficient(c))
  {
    SlackShrinks(1.0 - Clamp(cfg.baseMinFreshness), Coefficient(c));
  }

  /** A charge is admitted if and only if it can be afforded; it is added to what is left of the debt. */
  lemma ChargedWhen(cfg: Config, l: Ledger, harm: real, now: int)
    ensures var (ok, l') := Charged(cfg, l, Bounded(harm), now);
            && (ok <==> Affordable(cfg, l, now, harm))
            && (ok ==> l'.debt == DebtAt(cfg, l, now) + harm && l'.charged == l.charged + harm)
            && (!ok ==> l'.debt == DebtAt(cfg, l, now) && l'.charged == l.charged)
            && l'.clock == (if now > l.clock then now else l.clock)
            && l'.admitted == l.admitted + (if ok then 1 else 0) && l'.refused == l.refused + if ok then 0 else 1
  {
  }

  lemma HorizonIs(c: Consequence)
    requires c != Absolute
    ensures TermsOf(c).value.horizonNs as real / 1000000000.0 == HorizonSecs(c) as real
  {
  }

  lemma AssessedWhen(cfg: Config, c: StaleContext)
    ensures var t := TermsOf(c.consequence);
            && (AssessStale(cfg, c).Allowed? <==>
                && t.Some? && c.staleness <= t.value.horizonNs as real / 1000000000.0
                && c.freshness >= FloorOf(cfg, t.value.weight))
            && (AssessStale(cfg, c).Allowed? ==>
                AssessStale(cfg, c).risk == HarmOf(cfg, c.value, c.freshness, t.value.weight, c.trust))
  {
    TermsAre(c.consequence);
    AllowedIsSafe(cfg, c.value, c.consequence, c.trust, c.freshness, c.staleness);
    if c.consequence != Absolute {
      FloorIs(cfg, c.consequence);
      HorizonIs(c.consequence);
      hide MinFreshness, FloorOf, HorizonSecs, Clamp, Coefficient, TermsOf;
      if AssessStale(cfg, c).Allowed? {
        AllowedRisk(cfg, c.value, c.consequence, c.trust, c.freshness, c.staleness, 1.0 - Clamp(c.freshness));
      }
    }
  }

  /** An expired entry is served stale if and only if there is enough evidence, the class of the answer has
      terms, it is no staler than they allow, fresh enough for them, and the harm can be afforded; the harm is
      then charged. */
  lemma PlanByContext(cfg: Config, minEvidence: real, q: Query, l: Ledger, c: StaleContext)
    requires q.outcome.Expired? && c == ContextOf(q)
    ensures var (plan, l') := Planned(cfg, minEvidence, q, l); var t := TermsOf(c.consequence);
            && (plan.ServeStale? <==>
                && q.outcome.entry.evidenceSecs >= minEvidence && t.Some?
                && c.staleness <= t.value.horizonNs as real / 1000000000.0
                && c.freshness >= FloorOf(cfg, t.value.weight)
                && Affordable(cfg, l, q.now, HarmOf(cfg, c.value, c.freshness, t.value.weight, c.trust)))
            && (plan.ServeStale? ==>
                var harm := HarmOf(cfg, c.value, c.freshness, t.value.weight, c.trust);
                l'.debt == DebtAt(cfg, l, q.now) + harm && l'.charged == l.charged + harm)
  {
    AssessedWhen(cfg, c);
    hide AssessStale, Charged, Affordable, HarmOf, DebtAt, FloorOf, ContextOf, TermsOf;
    if AssessStale(cfg, c).Allowed? {
      ChargedWhen(cfg, l, AssessStale(cfg, c).risk, q.now);
    }
  }

  lemma TypesAre(rrType: nat)
    ensures TermsOfType(rrType) == TermsOf(Classify(rrType, false))
  {
  }

  /** Seconds are at most a horizon exactly if the nanoseconds are. */
  lemma WithinHorizon(late: int, horizonNs: int)
    requires horizonNs >= 0
    ensures Max(Seconds(late), 0.0) <= horizonNs as real / 1000000000.0 <==> late <= horizonNs
  {
    assert Seconds(late) * NS_PER_SEC == late as real;
  }

  /** Without a context, by the entry alone: it is served stale if and only if there is enough evidence, its
      type has terms, it expired no longer ago than they allow, its model is as certain of it as they ask for
      that many seconds past its expiry, and the harm can be afforded with nothing known of the value and the
      authenticity. */
  lemma PlanByEntry(cfg: Config, minEvidence: real, q: Query, l: Ledger, late: int, p: real)
    requires q.outcome.Expired? && q.ctx.None? && late == q.now - q.outcome.entry.expires
    requires p == q.outcome.entry.freshnessAt(if late > 0 then late as real / 1000000000.0 else 0.0)
    ensures var t := TermsOfType(q.outcome.entry.rrType);
            Planned(cfg, minEvidence, q, l).0.ServeStale? <==>
            && q.outcome.entry.evidenceSecs >= minEvidence && t.Some? && late <= t.value.horizonNs
            && p >= FloorOf(cfg, t.value.weight)
            && Affordable(cfg, l, q.now, HarmOf(cfg, 0.0, p, t.value.weight, Unverified))
  {
    var e, c := q.outcome.entry, ContextOf(q);
    TypesAre(e.rrType);
    assert c.staleness == if late > 0 then late as real / 1000000000.0 else 0.0;
    assert c.consequence == Classify(e.rrType, false) && c.trust == Unverified && c.value == 0.0 && c.freshness == p;
    assert TermsOfType(e.rrType).Some? ==> TermsOfType(e.rrType).value.horizonNs >= 0;
    assert c.staleness == Max(Seconds(late), 0.0);
    hide *;
    PlanByContext(cfg, minEvidence, q, l, c);
    if TermsOfType(e.rrType).Some? {
      WithinHorizon(late, TermsOfType(e.rrType).value.horizonNs);
    }
  }

  // ---------------------------------------------------------------------------------------------
  // An answer with dependencies

  /** The terms by what a dependency contributes to the answer. */
  function TermsOfRole(r: Role): Option<Terms> {
    match r
    case Answer => TermsOf(Low)
    case Cname => TermsOf(Medium)
    case Dname => TermsOf(Medium)
    case Delegation => TermsOf(Critical)
    case NsAddress => TermsOf(Critical)
    case DnssecProof => None
  }

  /** What is served under the terms of one class would be served under those of a milder one. */
  lemma MilderTerms(cfg: Config, a: Consequence, b: Consequence)
    requires Rank(a) <= Rank(b) && b != Absolute
    ensures TermsOf(a).Some? && TermsOf(a).value.horizonNs >= TermsOf(b).value.horizonNs
    ensures TermsOf(a).value.weight <= TermsOf(b).value.weight
    ensures FloorOf(cfg, TermsOf(a).value.weight) <= FloorOf(cfg, TermsOf(b).value.weight)
  {
    var slack, p, q := 1.0 - Clamp(cfg.baseMinFreshness), TermsOf(a).value.weight, TermsOf(b).value.weight;
    hide Clamp;
    LargerPart(slack, p, q);
  }

  lemma LargerPart(slack: real, p: real, q: real)
    requires slack >= 0.0 && 0.0 < p <= q
    ensures slack / q <= slack / p
  {
    var x, y := slack / q, slack / p;
    assert x * q == slack && y * p == slack;
    if x > y {
      assert y >= 0.0 by {
        assert y < 0.0 ==> y * p < 0.0;
      }
      Scale(p, q, y);
      assert (x - y) * q > 0.0;
    }
  }

  lemma RolesAre(r: Role)
    ensures TermsOfRole(r) == TermsOf(RoleConsequence(r))
  {
  }

  /** An answer is served stale only if each of its dependencies could be on its own: its role has terms, the
      answer is no staler than they allow, and the dependency is fresh enough for them. */
  lemma EveryDependencyAllows(cfg: Config, minEvidence: real, q: Query, l: Ledger, c: StaleContext, s: Set, i: nat)
    requires q.outcome.Expired? && q.ctx == Some(WithProvenance(c, s)) && i < |s.deps|
    requires Planned(cfg, minEvidence, q, l).0.ServeStale?
    ensures var d := s.deps[i]; var t := TermsOfRole(d.role);
            && t.Some? && c.staleness <= t.value.horizonNs as real / 1000000000.0
            && d.freshness >= FloorOf(cfg, t.value.weight)
  {
    var c', d := WithProvenance(c, s), s.deps[i];
    Severity.WorstIs(s.deps);
    assert Rank(Severity.ClassOf(d)) <= Rank(WorstOf(s.deps).value);
    BoundIs(s.deps, s.residual, |s.deps|);
    RolesAre(d.role);
    assert Rank(RoleConsequence(d.role)) <= Rank(c'.consequence);
    hide Planned, Bound, WorstOf, FloorOf, TermsOfRole, RoleConsequence;
    PlanByContext(cfg, minEvidence, q, l, c');
    TermsAre(c'.consequence);
    MilderTerms(cfg, RoleConsequence(d.role), c'.consequence);
  }
}
