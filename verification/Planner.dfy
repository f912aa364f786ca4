/** The stale-serving decision and what any run of it can cost (src/planner.rs). */
module Planner {
  import opened Octets
  import opened Risk
  import opened Provenance

  datatype StaleContext = StaleContext(consequence: Consequence, trust: Trust, freshness: real, staleness: real,
                                       value: real)

  /** What the planner reads of a cache entry: type, expiry, effective exposure, and the conservative
      freshness of its model at a given staleness. */
  datatype Entry = Entry(rrType: nat, expires: int, evidenceSecs: real, freshnessAt: real -> real)

  datatype Outcome = Live(entry: Entry) | Expired(entry: Entry) | NotCached

  datatype Plan = ServeFresh | ServeStale(refreshInBackground: bool) | Resolve

  /** `StaleContext::from_entry`. */
  function FromEntry(e: Entry, now: int, value: real, trust: Trust): StaleContext {
    var staleness := Max(Seconds(now - e.expires), 0.0);
    StaleContext(Classify(e.rrType, false), trust, e.freshnessAt(staleness), staleness, value)
  }

  /** `with_provenance`: the bound and the worst class of a whole dependency set. */
  function WithProvenance(ctx: StaleContext, s: Set): StaleContext {
    ctx.(freshness := BoundOf(s.deps, s.residual),
         consequence := match WorstOf(s.deps)
                        case None => ctx.consequence
                        case Some(w) => Worse(ctx.consequence, w))
  }

  datatype Query = Query(outcome: Outcome, now: int, ctx: Option<StaleContext>)

  function ContextOf(q: Query): StaleContext
    requires q.outcome.Expired?
  {
    match q.ctx
    case Some(c) => c
    case None => FromEntry(q.outcome.entry, q.now, 0.0, Unverified)
  }

  function AssessStale(cfg: Config, c: StaleContext): Verdict {
    Assess(cfg, c.value, c.consequence, c.trust, c.freshness, c.staleness)
  }

  /** `plan`: the decision, and the ledger after it. */
  function Planned(cfg: Config, minEvidence: real, q: Query, l: Ledger): (Plan, Ledger) {
    match q.outcome
    case Live(_) => (ServeFresh, l)
    case NotCached => (Resolve, l)
    case Expired(e) =>
      if e.evidenceSecs < minEvidence then (Resolve, l)
      else
        match AssessStale(cfg, ContextOf(q))
        case Refused(_) => (Resolve, l)
        case Allowed(risk) =>
          var (ok, l') := Charged(cfg, l, Bounded(risk), q.now);
          (if ok then ServeStale(true) else Resolve, l')
  }

  method PlanQuery(minEvidence: real, q: Query, ledger: RiskLedger) returns (plan: Plan)
    modifies ledger
    ensures (plan, ledger.Value()) == Planned(ledger.config, minEvidence, q, old(ledger.Value()))
  {
    match q.outcome {
      case Live(_) =>
        return ServeFresh;
      case NotCached =>
        return Resolve;
      case Expired(e) =>
        if e.evidenceSecs < minEvidence {
          return Resolve;
        }
        var verdict := AssessStale(ledger.config, ContextOf(q));
        if verdict.Refused? {
          return Resolve;
        }
        var ok := ledger.TryCharge(Bounded(verdict.risk), q.now);
        plan := if ok then ServeStale(true) else Resolve;
    }
  }

  // ---------------------------------------------------------------------------------------------
  // One decision

  /** A stale answer is never of a class that forbids it, is within its class's horizon and above its floor;
      it is charged its risk, which is bounded whatever the class; any other outcome is charged nothing. */
  lemma StaleIsPaidFor(cfg: Config, minEvidence: real, q: Query, l: Ledger)
    ensures var (plan, l') := Planned(cfg, minEvidence, q, l);
            && (plan.ServeStale? ==>
                  q.outcome.Expired? && q.outcome.entry.evidenceSecs >= minEvidence
                  && var c := ContextOf(q);
                     && AssessStale(cfg, c).Allowed? && c.consequence != Absolute
                     && c.staleness <= HorizonSecs(c.consequence) as real
                     && c.freshness >= MinFreshness(cfg, c.consequence)
                     && l'.charged == l.charged + AssessStale(cfg, c).risk && l'.debt <= cfg.budgetCapacity)
            && (!plan.ServeStale? ==> l'.charged == l.charged)
            && (plan.ServeFresh? <==> q.outcome.Live?) && (q.outcome.Live? || q.outcome.NotCached? ==> l' == l)
  {
    if q.outcome.Expired? {
      var c := ContextOf(q);
      AllowedIsSafe(cfg, c.value, c.consequence, c.trust, c.freshness, c.staleness);
      hide MinFreshness, Assess;
    }
  }

  lemma StaleCost(cfg: Config, minEvidence: real, q: Query, l: Ledger, v: real, slack: real)
    requires Planned(cfg, minEvidence, q, l).0.ServeStale?
    requires q.outcome.Expired? && v == Max(Max(ContextOf(q).value, cfg.valueFloorMs), 0.0)
    requires slack == 1.0 - Clamp(cfg.baseMinFreshness)
    ensures Planned(cfg, minEvidence, q, l).1.charged - l.charged <= Cost(v, slack, 1.0, Penalty(ContextOf(q).trust))
  {
    StaleIsPaidFor(cfg, minEvidence, q, l);
    var c := ContextOf(q);
    hide Planned, Cost, Clamp, Max, Assess;
    CostIsBounded(cfg, c.value, c.consequence, c.trust, c.freshness, c.staleness, v, slack);
  }

  // ---------------------------------------------------------------------------------------------
  // Runs

  /** `ls` are the states of a ledger through a run of queries, at whatever times they come. */
  ghost predicate IsRun(cfg: Config, minEvidence: real, qs: seq<Query>, ls: seq<Ledger>) {
    && |ls| == |qs| + 1 && ls[0].debt >= 0.0
    && forall i :: 0 <= i < |qs| ==> ls[i + 1] == Planned(cfg, minEvidence, qs[i], ls[i]).1
  }

  lemma PlannedPays(cfg: Config, minEvidence: real, q: Query, l: Ledger)
    requires l.debt >= 0.0
    ensures var l' := Planned(cfg, minEvidence, q, l).1;
            && l'.debt >= 0.0 && l'.clock >= l.clock
            && l'.charged - l.charged <= l'.debt - l.debt + Refill(cfg, l'.clock - l.clock)
  {
    RefillAdds(cfg, 0, 0);
    DrainedBound(cfg, l, q.now);
    hide Assess, Drained, Refill;
  }

  /** Debt accounts for whatever was charged and not yet drained. */
  lemma {:induction false} SlicePays(cfg: Config, minEvidence: real, qs: seq<Query>, ls: seq<Ledger>, i: nat, j: nat)
    requires IsRun(cfg, minEvidence, qs, ls) && i <= j <= |qs| && ls[i].debt >= 0.0
    ensures ls[j].debt >= 0.0 && ls[i].clock <= ls[j].clock
    ensures ls[j].charged - ls[i].charged
            <= ls[j].debt - ls[i].debt + Refill(cfg, ls[j].clock - ls[i].clock)
    decreases j
  {
    if i < j {
      SlicePays(cfg, minEvidence, qs, ls, i, j - 1);
      PlannedPays(cfg, minEvidence, qs[j - 1], ls[j - 1]);
      hide Planned, Refill;
      RefillAdds(cfg, ls[j - 1].clock - ls[i].clock, ls[j].clock - ls[j - 1].clock);
    } else {
      RefillAdds(cfg, 0, 0);
    }
  }

  /** Up to any stale answer, the risk charged since any earlier point is at most the capacity plus what
      the rate allows for the advance of the ledger's clock. */
  lemma BoundUpToStale(cfg: Config, minEvidence: real, qs: seq<Query>, ls: seq<Ledger>, i: nat, j: nat)
    requires IsRun(cfg, minEvidence, qs, ls) && i <= j < |qs|
    requires Planned(cfg, minEvidence, qs[j], ls[j]).0.ServeStale?
    ensures ls[j + 1].charged - ls[i].charged
            <= cfg.budgetCapacity + Refill(cfg, ls[j + 1].clock - ls[i].clock)
  {
    SlicePays(cfg, minEvidence, qs, ls, 0, i);
    SlicePays(cfg, minEvidence, qs, ls, i, j + 1);
    StaleIsPaidFor(cfg, minEvidence, qs[j], ls[j]);
    hide Planned;
  }

  /** Over any contiguous slice of any run, whatever the timestamps, the risk of the stale answers is at
      most capacity + rate * the advance of the ledger's clock. */
  lemma {:induction false} WindowBound(cfg: Config, minEvidence: real, qs: seq<Query>, ls: seq<Ledger>, i: nat, j: nat)
    requires IsRun(cfg, minEvidence, qs, ls) && i <= j <= |qs|
    requires cfg.budgetCapacity >= 0.0 && cfg.budgetPerSec >= 0.0
    ensures ls[j].charged - ls[i].charged
            <= cfg.budgetCapacity + Refill(cfg, ls[j].clock - ls[i].clock)
    decreases j
  {
    if i == j {
      RefillAdds(cfg, 0, 0);
    } else if Planned(cfg, minEvidence, qs[j - 1], ls[j - 1]).0.ServeStale? {
      BoundUpToStale(cfg, minEvidence, qs, ls, i, j - 1);
    } else {
      WindowBound(cfg, minEvidence, qs, ls, i, j - 1);
      StaleIsPaidFor(cfg, minEvidence, qs[j - 1], ls[j - 1]);
      SlicePays(cfg, minEvidence, qs, ls, 0, j - 1);
      PlannedPays(cfg, minEvidence, qs[j - 1], ls[j - 1]);
      hide Planned, Refill;
      RefillGrows(cfg, ls[j - 1].clock - ls[i].clock, ls[j].clock - ls[i].clock);
    }
  }
}
