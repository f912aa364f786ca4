/** Consequence classes, the ex-ante risk of a stale answer, and the ledger that bounds its sum
    (src/risk.rs). `f64` is modelled as `real`; timestamps are nanoseconds. */
module Risk {
  // ---------------------------------------------------------------------------------------------
  // Classes

  datatype Consequence = Low | Medium | High | Critical | Absolute

  /** Position in the order of severity. */
  function Rank(c: Consequence): nat {
    match c
    case Low => 0
    case Medium => 1
    case High => 2
    case Critical => 3
    case Absolute => 4
  }

  function Worse(a: Consequence, b: Consequence): Consequence {
    if Rank(a) < Rank(b) then b else a
  }

  const SECURITY_TYPES: set<nat> := {43, 46, 47, 48, 50}

  /** `Consequence::classify` by record type number. */
  function Classify(rrType: nat, isDelegationData: bool): Consequence {
    if rrType in SECURITY_TYPES then Absolute
    else if isDelegationData || rrType == 2 then Critical
    else if rrType in {15, 33, 52, 257, 64, 65} then High
    else if rrType in {5, 39} then Medium
    else Low
  }

  /** The coefficient of every class that has a finite one. */
  function Coefficient(c: Consequence): (r: real)
    requires c != Absolute
    ensures r >= 1.0
  {
    match c
    case Low => 1.0
    case Medium => 5.0
    case High => 25.0
    case Critical => 100.0
  }

  function HorizonSecs(c: Consequence): nat {
    match c
    case Low => 86400
    case Medium => 3600
    case High => 300
    case Critical => 30
    case Absolute => 0
  }

  datatype Trust = ChainAnchored | CryptoVerified | Unverified | Indeterminate

  function Penalty(t: Trust): (r: real)
    ensures r >= 1.0
  {
    match t
    case ChainAnchored => 1.0
    case CryptoVerified => 2.0
    case Unverified => 5.0
    case Indeterminate => 10.0
  }

  datatype Refusal = ClassForbidsStale | HorizonExceeded | FreshnessTooLow | NotWorthIt

  datatype Config = Config(baseMinFreshness: real, valueFloorMs: real, budgetPerSec: real, budgetCapacity: real)

  // ---------------------------------------------------------------------------------------------
  // The risk of one answer

  function Clamp(x: real): (r: real)
    ensures 0.0 <= r <= 1.0
  {
    if x < 0.0 then 0.0 else if x > 1.0 then 1.0 else x
  }

  function Max(a: real, b: real): real { if a < b then b else a }

  function MinFreshness(cfg: Config, c: Consequence): real {
    if c == Absolute then 1.0 else Clamp(1.0 - (1.0 - Clamp(cfg.baseMinFreshness)) / Coefficient(c))
  }

  /** Value times a chance, scaled by the coefficient of a class and the penalty for weak authenticity. */
  function Cost(value: real, chance: real, coefficient: real, penalty: real): real {
    value * chance * coefficient * penalty
  }

  /** A risk: `Unbounded` stands for infinity. */
  datatype Harm = Bounded(ms: real) | Unbounded

  /** `risk_of`. */
  function RiskOf(cfg: Config, value: real, c: Consequence, trust: Trust, freshness: real, staleness: real): Harm {
    if c == Absolute || staleness > HorizonSecs(c) as real then Unbounded
    else Bounded(Cost(Max(value, cfg.valueFloorMs), 1.0 - Clamp(freshness), Coefficient(c), Penalty(trust)))
  }

  datatype Verdict = Allowed(risk: real) | Refused(reason: Refusal)

  /** `assess`. */
  function Assess(cfg: Config, value: real, c: Consequence, trust: Trust, freshness: real, staleness: real): Verdict {
    if c == Absolute then Refused(ClassForbidsStale)
    else if staleness > HorizonSecs(c) as real then Refused(HorizonExceeded)
    else if freshness < MinFreshness(cfg, c) then Refused(FreshnessTooLow)
    else
      match RiskOf(cfg, value, c, trust, freshness, staleness)
      case Unbounded => Refused(NotWorthIt)
      case Bounded(ms) => Allowed(ms)
  }

  lemma Scale(x: real, y: real, k: real)
    requires x <= y && k >= 0.0
    ensures k * x <= k * y && x * k <= y * k
  {
  }

  lemma FloorCancels(slack: real, c: real, p: real)
    requires c >= 1.0 && 0.0 <= slack <= 1.0 && p >= 1.0 - slack / c
    ensures (1.0 - p) * c <= slack
  {
    Scale(1.0 - p, slack / c, c);
    assert slack / c * c == slack;
  }

  /** What is allowed has a class that permits staleness, is within its horizon and above its floor. */
  lemma AllowedIsSafe(cfg: Config, value: real, c: Consequence, trust: Trust, freshness: real,
                      staleness: real)
    ensures Assess(cfg, value, c, trust, freshness, staleness).Allowed? <==>
            c != Absolute && staleness <= HorizonSecs(c) as real && freshness >= MinFreshness(cfg, c)
  {
    hide MinFreshness, Clamp, Max;
  }

  lemma AllowedRisk(cfg: Config, value: real, c: Consequence, trust: Trust, freshness: real,
                    staleness: real, q: real)
    requires Assess(cfg, value, c, trust, freshness, staleness).Allowed? && c != Absolute && q == 1.0 - Clamp(freshness)
    ensures Assess(cfg, value, c, trust, freshness, staleness).risk
            == Cost(Max(value, cfg.valueFloorMs), q, Coefficient(c), Penalty(trust))
  {
    hide MinFreshness, Clamp, Max, Coefficient, Penalty, Cost;
  }

  /** An answer that passes the floor costs at most value * (1 - base) * penalty, whatever its class:
      the coefficient of the class is paid for by its stricter floor. */
  lemma CostIsBounded(cfg: Config, value: real, c: Consequence, trust: Trust, freshness: real,
                      staleness: real, v: real, slack: real)
    requires Assess(cfg, value, c, trust, freshness, staleness).Allowed?
    requires v == Max(Max(value, cfg.valueFloorMs), 0.0) && slack == 1.0 - Clamp(cfg.baseMinFreshness)
    ensures Assess(cfg, value, c, trust, freshness, staleness).risk <= Cost(v, slack, 1.0, Penalty(trust))
  {
    AllowedIsSafe(cfg, value, c, trust, freshness, staleness);
    FloorLeaves(cfg, c, freshness);
    var q := 1.0 - Clamp(freshness);
    AllowedRisk(cfg, value, c, trust, freshness, staleness, q);
    hide *;
    CostArithmetic(Max(value, cfg.valueFloorMs), q, Coefficient(c), slack, Penalty(trust));
  }

  /** What the freshness floor of a class leaves of the risk: the coefficient cancels. */
  lemma FloorLeaves(cfg: Config, c: Consequence, freshness: real)
    requires c != Absolute && freshness >= MinFreshness(cfg, c)
    ensures (1.0 - Clamp(freshness)) * Coefficient(c) <= 1.0 - Clamp(cfg.baseMinFreshness)
  {
    var slack, k := 1.0 - Clamp(cfg.baseMinFreshness), Coefficient(c);
    SlackShrinks(slack, k);
    FloorCancels(slack, k, Clamp(freshness));
  }

  lemma CostArithmetic(v: real, q: real, k: real, slack: real, penalty: real)
    requires q >= 0.0 && k >= 1.0 && q * k <= slack && penalty >= 1.0
    ensures Cost(v, q, k, penalty) <= Cost(Max(v, 0.0), slack, 1.0, penalty)
  {
    var e := q * k;
    assert 0.0 <= e by {
      Scale(0.0, q, k);
    }
    assert v * q * k == v * e;
    Scale(v, Max(v, 0.0), e);
    Scale(e, slack, Max(v, 0.0));
    Scale(v * e, Max(v, 0.0) * slack, penalty);
  }

  lemma SlackShrinks(slack: real, k: real)
    requires 0.0 <= slack <= 1.0 && k >= 1.0
    ensures 0.0 <= slack / k <= 1.0
  {
    var q := slack / k;
    assert q * k == slack;
    assert q < 0.0 ==> q * k <= q;
    assert q > 1.0 ==> q * k >= q;
  }

  // ---------------------------------------------------------------------------------------------
  // The ledger

  const NS_PER_SEC: real := 1000000000.0

  function Seconds(ns: int): real {
    ns as real / NS_PER_SEC
  }

  datatype Ledger = Ledger(debt: real, clock: int, charged: real, admitted: nat, refused: nat)

  /** `drain`: only a later timestamp moves the clock. */
  function Drained(cfg: Config, l: Ledger, now: int): Ledger {
    if now <= l.clock then l
    else l.(debt := Max(l.debt - Refill(cfg, now - l.clock), 0.0), clock := now)
  }

  /** `try_charge`: whether the risk is admitted, and the ledger after it. */
  function Charged(cfg: Config, l: Ledger, risk: Harm, now: int): (bool, Ledger) {
    var d := Drained(cfg, l, now);
    if risk.Unbounded? || risk.ms < 0.0 || d.debt + risk.ms > cfg.budgetCapacity then
      (false, d.(refused := d.refused + 1))
    else (true, d.(debt := d.debt + risk.ms, charged := d.charged + risk.ms, admitted := d.admitted + 1))
  }

  /** What the rate drains in `ns` nanoseconds. */
  function Refill(cfg: Config, ns: int): real {
    cfg.budgetPerSec * Seconds(ns)
  }

  lemma RefillAdds(cfg: Config, a: int, b: int)
    ensures Refill(cfg, a + b) == Refill(cfg, a) + Refill(cfg, b) && Refill(cfg, 0) == 0.0
  {
    assert Seconds(a + b) == Seconds(a) + Seconds(b);
    assert Seconds(0) == 0.0;
  }

  lemma RefillGrows(cfg: Config, a: int, b: int)
    requires a <= b && cfg.budgetPerSec >= 0.0
    ensures Refill(cfg, a) <= Refill(cfg, b)
  {
    Scale(Seconds(a), Seconds(b), cfg.budgetPerSec);
  }

  lemma DrainedBound(cfg: Config, l: Ledger, now: int)
    requires l.debt >= 0.0
    ensures var d := Drained(cfg, l, now);
            && d.debt >= 0.0 && d.clock >= l.clock && d.charged == l.charged
            && d.debt >= l.debt - Refill(cfg, d.clock - l.clock)
  {
    RefillAdds(cfg, 0, 0);
  }

  class RiskLedger {
    const config: Config
    var debt: real
    var lastUpdate: int
    var chargedTotal: real
    var admitted: nat
    var refused: nat

    function Value(): Ledger
      reads this
    {
      Ledger(debt, lastUpdate, chargedTotal, admitted, refused)
    }

    constructor (config: Config, now: int)
      ensures this.config == config && Value() == Ledger(0.0, now, 0.0, 0, 0)
    {
      this.config, debt, lastUpdate, chargedTotal, admitted, refused := config, 0.0, now, 0.0, 0, 0;
    }

    method Drain(now: int)
      modifies this
      ensures Value() == Drained(config, old(Value()), now)
    {
      var dt := Seconds(now - lastUpdate);
      if dt <= 0.0 {
        return;
      }
      debt := Max(debt - config.budgetPerSec * dt, 0.0);
      lastUpdate := now;
    }

    method TryCharge(risk: Harm, now: int) returns (ok: bool)
      modifies this
      ensures (ok, Value()) == Charged(config, old(Value()), risk, now)
      ensures ok ==> risk.Bounded? && debt <= config.budgetCapacity && chargedTotal == old(chargedTotal) + risk.ms
      ensures !ok ==> chargedTotal == old(chargedTotal)
    {
      Drain(now);
      if risk.Unbounded? || risk.ms < 0.0 {
        refused := refused + 1;
        return false;
      }
      if debt + risk.ms > config.budgetCapacity {
        refused := refused + 1;
        return false;
      }
      debt := debt + risk.ms;
      chargedTotal := chargedTotal + risk.ms;
      admitted := admitted + 1;
      ok := true;
    }
  }

  // ---------------------------------------------------------------------------------------------
  // The refresh budget

  datatype Bucket = Bucket(tokens: real, clock: int, granted: nat)

  function Min(a: real, b: real): real { if b < a then b else a }

  /** The tokens after `ns` more nanoseconds, up to the capacity. */
  function Refilled(perSec: real, capacity: real, tokens: real, ns: int): real {
    Min(tokens + perSec * Seconds(ns), capacity)
  }

  /** How many of `want` the tokens cover, rounded down. */
  function Covered(capacity: real, tokens: real, want: nat): nat {
    if capacity <= 0.0 then 0 else Min(Max(tokens, 0.0), want as real).Floor
  }

  /** `take`: how many refreshes may proceed, rounded down, and the bucket after them. */
  function Take(perSec: real, capacity: real, b: Bucket, want: nat, now: int): (nat, Bucket) {
    var tokens := if now > b.clock then Refilled(perSec, capacity, b.tokens, now - b.clock) else b.tokens;
    var clock := if now > b.clock then now else b.clock;
    var allowed := Covered(capacity, tokens, want);
    (allowed, Bucket(tokens - allowed as real, clock, b.granted + allowed))
  }

  datatype Request = Request(want: nat, now: int)

  /** `bs` are the states of a bucket that serves one request after another. */
  ghost predicate Serves(perSec: real, capacity: real, bs: seq<Bucket>, rs: seq<Request>) {
    && |bs| == |rs| + 1
    && forall i :: 0 <= i < |rs| ==> bs[i + 1] == Take(perSec, capacity, bs[i], rs[i].want, rs[i].now).1
  }

  lemma TakePays(perSec: real, capacity: real, b: Bucket, want: nat, now: int)
    requires perSec >= 0.0 && capacity >= 0.0 && 0.0 <= b.tokens <= capacity
    ensures var (n, b') := Take(perSec, capacity, b, want, now);
            && n <= want && 0.0 <= b'.tokens <= capacity && b'.clock >= b.clock && b'.granted == b.granted + n
            && b'.tokens + n as real <= b.tokens + perSec * Seconds(b'.clock - b.clock)
  {
    assert Seconds(0) == 0.0;
    if now > b.clock {
      Scale(0.0, Seconds(now - b.clock), perSec);
    }
  }

  /** As many are granted as were asked for, or as whole tokens there are once the bucket has been refilled, if
      those are fewer; and that many tokens are taken. */
  lemma GrantIsExact(perSec: real, capacity: real, b: Bucket, want: nat, now: int, tokens: real)
    requires perSec >= 0.0 && capacity > 0.0 && 0.0 <= b.tokens <= capacity
    requires tokens == if now <= b.clock then b.tokens
                       else Min(b.tokens + perSec * ((now - b.clock) as real / 1000000000.0), capacity)
    ensures var (n, b') := Take(perSec, capacity, b, want, now);
            && n <= want && n as real <= tokens && (n < want ==> tokens < (n + 1) as real)
            && b'.tokens == tokens - n as real && b'.granted == b.granted + n
            && b'.clock == if now <= b.clock then b.clock else now
  {
    if now > b.clock {
      Scale(0.0, Seconds(now - b.clock), perSec);
    }
  }

  /** Over any run of requests, at whatever times they come, no more refreshes are granted than the bucket
      held and the clock refilled. */
  lemma RefreshIsBounded(perSec: real, capacity: real, bs: seq<Bucket>, rs: seq<Request>, i: nat, j: nat)
    requires Serves(perSec, capacity, bs, rs) && perSec >= 0.0 && capacity >= 0.0 && 0.0 <= bs[0].tokens <= capacity
    requires i <= j <= |rs|
    ensures 0.0 <= bs[j].tokens <= capacity && bs[i].clock <= bs[j].clock
    ensures (bs[j].granted - bs[i].granted) as real <= capacity + perSec * Seconds(bs[j].clock - bs[i].clock)
  {
    TokensPay(perSec, capacity, bs, rs, 0, i);
    TokensPay(perSec, capacity, bs, rs, i, j);
  }

  lemma {:induction false} TokensPay(perSec: real, capacity: real, bs: seq<Bucket>, rs: seq<Request>, i: nat, j: nat)
    requires Serves(perSec, capacity, bs, rs) && i <= j <= |rs|
    requires perSec >= 0.0 && capacity >= 0.0 && 0.0 <= bs[i].tokens <= capacity
    ensures 0.0 <= bs[j].tokens <= capacity && bs[i].clock <= bs[j].clock
    ensures bs[j].tokens + (bs[j].granted - bs[i].granted) as real
            <= bs[i].tokens + perSec * Seconds(bs[j].clock - bs[i].clock)
    decreases j
  {
    if i < j {
      TokensPay(perSec, capacity, bs, rs, i, j - 1);
      TakePays(perSec, capacity, bs[j - 1], rs[j - 1].want, rs[j - 1].now);
      var a, b := bs[j - 1].clock - bs[i].clock, bs[j].clock - bs[j - 1].clock;
      assert Seconds(a + b) == Seconds(a) + Seconds(b);
      assert perSec * (Seconds(a) + Seconds(b)) == perSec * Seconds(a) + perSec * Seconds(b);
    } else {
      assert Seconds(0) == 0.0;
    }
  }

  class RefreshBudget {
    const perSec: real
    const capacity: real
    var tokens: real
    var lastUpdate: int
    var granted: nat
    var denied: nat

    function Value(): Bucket
      reads this
    {
      Bucket(tokens, lastUpdate, granted)
    }

    constructor (perSec: real, capacity: real, now: int)
      ensures this.perSec == Max(perSec, 0.0) && this.capacity == Max(capacity, 0.0)
      ensures Value() == Bucket(this.capacity, now, 0)
    {
      this.perSec, this.capacity, tokens := Max(perSec, 0.0), Max(capacity, 0.0), Max(capacity, 0.0);
      lastUpdate, granted, denied := now, 0, 0;
    }

    method TakeUp(want: nat, now: int) returns (allowed: nat)
      modifies this
      ensures (allowed, Value()) == Take(perSec, capacity, old(Value()), want, now)
      ensures denied == old(denied) + if allowed == 0 && want > 0 then 1 else 0
    {
      hide Refilled, Covered;
      if now > lastUpdate {
        tokens := Refilled(perSec, capacity, tokens, now - lastUpdate);
        lastUpdate := now;
      }
      allowed := Covered(capacity, tokens, want);
      if allowed == 0 && want > 0 {
        denied := denied + 1;
      }
      tokens := tokens - allowed as real;
      granted := granted + allowed;
    }
  }
}
