/** The latency digest: a fixed array of counters that must bound every quantile of what it counted
    (src/calibration.rs). Latencies are `u64` microseconds. */
module Digest {
  import opened Octets
  import opened Powers
  import Risk

  const BUCKETS: nat := 24
  const MAX_U64: nat := 0xFFFF_FFFF_FFFF_FFFF

  type Micros = x: nat | x <= MAX_U64

  /** The position of the highest set bit, counted from one: `64 - leading_zeros`. */
  function Bits(x: nat): (b: nat)
    ensures x > 0 ==> b > 0
  {
    if x == 0 then 0 else 1 + Bits(x / 2)
  }

  /** `latency_bucket`. */
  function BucketOf(x: nat): (b: nat)
    ensures b < BUCKETS
  {
    if x == 0 then 0 else if Bits(x) - 1 < BUCKETS - 1 then Bits(x) - 1 else BUCKETS - 1
  }

  /** `bucket_upper_us`: the exclusive upper edge, all ones for the overflow bucket. */
  function UpperEdge(b: nat): nat {
    if b >= BUCKETS - 1 then MAX_U64 else Pow2(b + 1)
  }

  lemma {:induction false} BitsBracket(x: nat)
    requires x > 0
    ensures Pow2(Bits(x) - 1) <= x < Pow2(Bits(x))
  {
    if x > 1 {
      BitsBracket(x / 2);
      assert Pow2(Bits(x) - 1) == 2 * Pow2(Bits(x / 2) - 1);
    }
  }

  lemma {:induction false} Pow2Grows(i: nat, j: nat)
    requires i <= j
    ensures Pow2(i) <= Pow2(j)
  {
    if i < j {
      Pow2Grows(i, j - 1);
    }
  }

  lemma Pow2At23()
    ensures Pow2(23) == 0x80_0000
  {
    assert Pow2(4) == 16;
    assert Pow2(8) == 256;
    assert Pow2(12) == 0x1000;
    assert Pow2(16) == 0x1_0000;
    assert Pow2(20) == 0x10_0000;
  }

  lemma {:induction false} BitsGrow(x: nat, y: nat)
    requires x <= y
    ensures Bits(x) <= Bits(y)
  {
    if x > 0 {
      BitsGrow(x / 2, y / 2);
    }
  }

  /** A larger latency is in the same bucket or a later one. */
  lemma BucketGrows(x: nat, y: nat)
    requires x <= y
    ensures BucketOf(x) <= BucketOf(y)
  {
    BitsGrow(x, y);
    hide Bits;
  }

  /** The edge of a latency's bucket is not below it; it is at most twice the latency exactly for those from
      1 microsecond up to 2^23, where the overflow bucket begins, and from 2^63 on. */
  lemma EdgeApproximates(x: Micros)
    ensures x <= UpperEdge(BucketOf(x))
    ensures UpperEdge(BucketOf(x)) <= 2 * x <==> 1 <= x < 0x80_0000 || x >= 0x8000_0000_0000_0000
  {
    Pow2At23();
    if x > 0 {
      BitsBracket(x);
      assert Pow2(Bits(x)) == 2 * Pow2(Bits(x) - 1);
      hide Pow2, Bits;
      if Bits(x) - 1 < BUCKETS - 1 {
        Pow2Grows(Bits(x), 23);
      } else {
        Pow2Grows(23, Bits(x) - 1);
      }
    } else {
      assert Pow2(1) == 2;
    }
  }

  // ---------------------------------------------------------------------------------------------
  // What the counters count

  /** How many of the samples satisfy `p`. */
  function Count(samples: seq<Micros>, p: Micros -> bool): (n: nat)
    ensures n <= |samples|
  {
    if samples == [] then 0
    else Count(samples[..|samples| - 1], p) + if p(samples[|samples| - 1]) then 1 else 0
  }

  function InBucket(b: nat): Micros -> bool {
    (x: Micros) => BucketOf(x) == b
  }

  function UpToBucket(b: nat): Micros -> bool {
    (x: Micros) => BucketOf(x) < b
  }

  function AtMost(s: nat): Micros -> bool {
    (x: Micros) => x <= s
  }

  function Under(s: nat): Micros -> bool {
    (x: Micros) => x < s
  }

  lemma {:induction false} CountImplied(samples: seq<Micros>, p: Micros -> bool, q: Micros -> bool)
    requires forall x: Micros :: p(x) ==> q(x)
    ensures Count(samples, p) <= Count(samples, q)
  {
    if samples != [] {
      CountImplied(samples[..|samples| - 1], p, q);
    }
  }

  lemma {:induction false} CountSplits(samples: seq<Micros>, b: nat)
    ensures Count(samples, UpToBucket(b + 1)) == Count(samples, UpToBucket(b)) + Count(samples, InBucket(b))
  {
    if samples != [] {
      CountSplits(samples[..|samples| - 1], b);
    }
  }

  lemma {:induction false} CountAll(samples: seq<Micros>)
    ensures Count(samples, UpToBucket(BUCKETS)) == |samples| && Count(samples, UpToBucket(0)) == 0
  {
    if samples != [] {
      CountAll(samples[..|samples| - 1]);
    }
  }

  /** The counters hold how many samples fell into each bucket. */
  ghost predicate Digests(counts: seq<nat>, samples: seq<Micros>) {
    |counts| == BUCKETS && forall b :: 0 <= b < BUCKETS ==> counts[b] == Count(samples, InBucket(b))
  }

  function Sum(counts: seq<nat>, n: nat): nat
    requires n <= |counts|
  {
    if n == 0 then 0 else Sum(counts, n - 1) + counts[n - 1]
  }

  lemma {:induction false} SumCounts(counts: seq<nat>, samples: seq<Micros>, n: nat)
    requires Digests(counts, samples) && n <= BUCKETS
    ensures Sum(counts, n) == Count(samples, UpToBucket(n))
  {
    if n > 0 {
      SumCounts(counts, samples, n - 1);
      CountSplits(samples, n - 1);
    } else {
      CountAll(samples);
    }
  }

  /** `s` is the `k`-th smallest of the samples. */
  ghost predicate KthSmallest(samples: seq<Micros>, k: nat, s: Micros) {
    s in samples && Count(samples, Under(s)) < k <= Count(samples, AtMost(s))
  }

  /** The first bucket at which the running sum reaches `target`, from bucket `b` on. */
  function FirstReaching(counts: seq<nat>, target: nat, b: nat): (r: nat)
    requires b <= |counts|
    ensures b <= r <= |counts|
    decreases |counts| - b
  {
    if b == |counts| || Sum(counts, b + 1) >= target then b else FirstReaching(counts, target, b + 1)
  }

  lemma {:induction false} FirstReachingIs(counts: seq<nat>, target: nat, b: nat, c: nat)
    requires b <= c < |counts| && Sum(counts, c + 1) >= target
    requires forall j :: b < j <= c ==> Sum(counts, j) < target
    ensures FirstReaching(counts, target, b) == c
    decreases c - b
  {
    if b < c {
      FirstReachingIs(counts, target, b + 1, c);
    }
  }

  /** The running sums reach rank `k` exactly at the bucket of the `k`-th smallest sample. */
  lemma ReachesItsBucket(counts: seq<nat>, samples: seq<Micros>, k: nat, s: Micros)
    requires Digests(counts, samples) && KthSmallest(samples, k, s)
    ensures FirstReaching(counts, k, 0) == BucketOf(s)
  {
    var c := BucketOf(s);
    SumCounts(counts, samples, c + 1);
    forall x: Micros | AtMost(s)(x) ensures UpToBucket(c + 1)(x) {
      BucketGrows(x, s);
    }
    CountImplied(samples, AtMost(s), UpToBucket(c + 1));
    forall j | 0 < j <= c ensures Sum(counts, j) < k {
      SumCounts(counts, samples, j);
      forall x: Micros | UpToBucket(j)(x) ensures Under(s)(x) {
        if x >= s {
          BucketGrows(s, x);
        }
      }
      CountImplied(samples, UpToBucket(j), Under(s));
    }
    FirstReachingIs(counts, k, 0, c);
  }

  // ---------------------------------------------------------------------------------------------
  // Recording and asking

  function SaturatingAdd(a: nat, b: nat): nat {
    if a + b > MAX_U64 then MAX_U64 else a + b
  }

  datatype State = State(counts: seq<nat>, total: nat, sumUs: nat, minUs: nat, maxUs: nat)

  /** `record`. */
  function Recorded(d: State, x: Micros): State
    requires |d.counts| == BUCKETS
  {
    var b := BucketOf(x);
    State(d.counts[b := SaturatingAdd(d.counts[b], 1)], SaturatingAdd(d.total, 1), SaturatingAdd(d.sumUs, x),
          if x < d.minUs then x else d.minUs, if x > d.maxUs then x else d.maxUs)
  }

  /** The state holds exactly the samples, as long as there are fewer than 2^64 of them. */
  ghost predicate Holds(d: State, samples: seq<Micros>) {
    Digests(d.counts, samples) && d.total == |samples|
  }

  lemma RecordKeeps(d: State, samples: seq<Micros>, x: Micros)
    requires Holds(d, samples) && |samples| < MAX_U64
    ensures Holds(Recorded(d, x), samples + [x])
  {
    var all := samples + [x];
    assert all[..|all| - 1] == samples;
    forall b | 0 <= b < BUCKETS ensures Recorded(d, x).counts[b] == Count(all, InBucket(b)) {
      assert Count(all, InBucket(b)) == Count(samples, InBucket(b)) + if BucketOf(x) == b then 1 else 0;
    }
  }

  function Total(samples: seq<Micros>): nat {
    if samples == [] then 0 else Total(samples[..|samples| - 1]) + samples[|samples| - 1]
  }

  /** The extremes are those of the samples, and the sum is theirs as far as 64 bits go. */
  ghost predicate Spans(d: State, samples: seq<Micros>) {
    && (forall s :: s in samples ==> d.minUs <= s <= d.maxUs)
    && (if samples == [] then d.minUs == MAX_U64 && d.maxUs == 0 else d.minUs in samples && d.maxUs in samples)
    && d.sumUs == if Total(samples) <= 0xFFFF_FFFF_FFFF_FFFF then Total(samples) else 0xFFFF_FFFF_FFFF_FFFF
  }

  lemma RecordSpans(d: State, samples: seq<Micros>, x: Micros)
    requires |d.counts| == BUCKETS && Spans(d, samples)
    ensures Spans(Recorded(d, x), samples + [x])
  {
    var all := samples + [x];
    assert all[..|all| - 1] == samples && all[|all| - 1] == x;
    assert Total(all) == Total(samples) + x;
    hide Total, BucketOf;
  }

  function Ceiling(x: real): int {
    if x.Floor as real == x then x.Floor else x.Floor + 1
  }

  /** The rank `quantile_us` looks for: the ceiling of `q * total`, at least one. */
  function Rank(q: real, total: nat): nat {
    var up := Ceiling(Risk.Clamp(q) * total as real);
    if up < 1 then 1 else up
  }

  lemma CeilingWithin(x: real, n: nat)
    requires x <= n as real
    ensures Ceiling(x) <= n
  {
  }

  /** The share of the samples a quantile asks for: `q` brought into 0..=1. */
  function Share(q: real, total: nat): real {
    (if q < 0.0 then 0.0 else if q > 1.0 then 1.0 else q) * total as real
  }

  lemma RankIs(q: real, total: nat)
    requires total > 0
    ensures 1 <= Rank(q, total) <= total
  {
    AtMostTotal(Risk.Clamp(q), total as real);
    CeilingWithin(Risk.Clamp(q) * total as real, total);
  }

  /** The rank is the least one, from 1 on, that is not below the share asked for. */
  lemma RankIsLeast(q: real, total: nat, k: nat)
    requires k >= 1
    ensures Rank(q, total) <= k <==> Share(q, total) <= k as real
  {
    ShareIs(q, total);
    hide Share;
    CeilingIsLeast(Share(q, total), k);
  }

  lemma CeilingIsLeast(x: real, k: int)
    ensures Ceiling(x) <= k <==> x <= k as real
  {
    var f := x.Floor;
    assert f as real <= x < (f + 1) as real;
    if k <= f {
      assert k as real <= f as real;
    } else {
      assert k as real >= (f + 1) as real;
    }
  }

  lemma ShareGrows(q: real, q': real, total: nat)
    requires q <= q'
    ensures Share(q, total) <= Share(q', total)
  {
    ShareIs(q, total);
    ShareIs(q', total);
    var c, c' := Risk.Clamp(q), Risk.Clamp(q');
    hide Share;
    Risk.Scale(c, c', total as real);
  }

  lemma ShareIs(q: real, total: nat)
    ensures Share(q, total) == Risk.Clamp(q) * total as real
  {
  }

  lemma AtMostTotal(c: real, total: real)
    requires 0.0 <= c <= 1.0 && total >= 0.0
    ensures 0.0 <= c * total <= total
  {
    assert (1.0 - c) * total >= 0.0;
    assert (1.0 - c) * total == total - c * total;
  }

  /** `quantile_us`. */
  function Quantile(d: State, q: real): Option<nat> {
    if d.total == 0 then None
    else
      var b := FirstReaching(d.counts, Rank(q, d.total), 0);
      if b < |d.counts| then Some(UpperEdge(b)) else Some(d.maxUs)
  }

  /** The quantile is exactly the edge of the bucket of the sample of that rank. So it is never below that
      sample, and at most twice it exactly when the sample is from 1 microsecond up to 2^23, or 2^63 and
      more. The loop always finds its bucket: the fallback to the maximum is never reached. */
  lemma QuantileIsTwoSided(d: State, samples: seq<Micros>, q: real, s: Micros)
    requires Holds(d, samples) && samples != [] && KthSmallest(samples, Rank(q, |samples|), s)
    ensures Quantile(d, q) == Some(UpperEdge(BucketOf(s)))
    ensures s <= Quantile(d, q).value
    ensures Quantile(d, q).value <= 2 * s <==> 1 <= s < 0x80_0000 || s >= 0x8000_0000_0000_0000
  {
    ReachesItsBucket(d.counts, samples, Rank(q, |samples|), s);
    EdgeApproximates(s);
  }

  /** On the samples alone: at least the share asked for is at most the quantile, which is the edge of the
      bucket of a sample with less than the share, or nothing, strictly below it. */
  lemma QuantileCovers(d: State, samples: seq<Micros>, q: real) returns (s: Micros)
    requires Holds(d, samples) && samples != []
    ensures Quantile(d, q) == Some(UpperEdge(BucketOf(s))) && s in samples
    ensures Count(samples, AtMost(Quantile(d, q).value)) as real >= Share(q, |samples|)
    ensures Count(samples, Under(s)) == 0 || (Count(samples, Under(s)) as real) < Share(q, |samples|)
  {
    var n := |samples|;
    var k := Rank(q, n);
    RankIs(q, n);
    s := RankExists(samples, k);
    hide Rank, Share, Quantile, UpperEdge, BucketOf, Holds;
    var below := Count(samples, Under(s));
    RankIsLeast(q, n, k);
    if below >= 1 {
      RankIsLeast(q, n, below);
    }
    QuantileIsTwoSided(d, samples, q, s);
    CountImplied(samples, AtMost(s), AtMost(Quantile(d, q).value));
  }

  /** A higher quantile is never smaller. */
  lemma QuantileGrows(d: State, samples: seq<Micros>, q: real, q': real)
    requires Holds(d, samples) && samples != [] && q <= q'
    ensures Quantile(d, q).Some? && Quantile(d, q').Some? && Quantile(d, q).value <= Quantile(d, q').value
  {
    var n := |samples|;
    var k, k' := Rank(q, n), Rank(q', n);
    RankIs(q, n);
    RankIs(q', n);
    ShareGrows(q, q', n);
    RankIsLeast(q, n, k');
    RankIsLeast(q', n, k');
    var s := RankExists(samples, k);
    var s' := RankExists(samples, k');
    hide *;
    QuantileIsTwoSided(d, samples, q, s);
    QuantileIsTwoSided(d, samples, q', s');
    KthGrows(samples, k, k', s, s');
    EdgesGrow(s, s');
  }

  lemma KthGrows(samples: seq<Micros>, k: nat, k': nat, s: Micros, s': Micros)
    requires KthSmallest(samples, k, s) && KthSmallest(samples, k', s') && k <= k'
    ensures s <= s'
  {
    if s > s' {
      CountImplied(samples, AtMost(s'), Under(s));
    }
  }

  lemma EdgesGrow(s: Micros, s': Micros)
    requires s <= s'
    ensures UpperEdge(BucketOf(s)) <= UpperEdge(BucketOf(s'))
  {
    BucketGrows(s, s');
    Pow2At23();
    hide BucketOf;
    if BucketOf(s') < BUCKETS - 1 {
      Pow2Grows(BucketOf(s) + 1, BucketOf(s') + 1);
    } else if BucketOf(s) < BUCKETS - 1 {
      Pow2Grows(BucketOf(s) + 1, 23);
    }
  }

  /** Every rank has its sample, so the above speaks of every quantile of every non-empty digest. */
  lemma RankExists(samples: seq<Micros>, k: nat) returns (s: Micros)
    requires 1 <= k <= |samples|
    ensures KthSmallest(samples, k, s)
  {
    s := LeastReaching(samples, k, MAX_U64);
  }

  lemma {:induction false} EverythingAtMost(samples: seq<Micros>)
    ensures Count(samples, AtMost(MAX_U64)) == |samples|
  {
    if samples != [] {
      EverythingAtMost(samples[..|samples| - 1]);
    }
  }

  lemma {:induction false} NoneAtMost(samples: seq<Micros>, s: Micros)
    requires s !in samples
    ensures Count(samples, AtMost(s)) == Count(samples, Under(s))
  {
    if samples != [] {
      NoneAtMost(samples[..|samples| - 1], s);
    }
  }

  lemma {:induction false} UnderIsAtMost(samples: seq<Micros>, s: Micros)
    ensures s > 0 ==> Count(samples, Under(s)) == Count(samples, AtMost(s - 1))
    ensures s == 0 ==> Count(samples, Under(s)) == 0
  {
    if samples != [] {
      UnderIsAtMost(samples[..|samples| - 1], s);
    }
  }

  lemma {:induction false} LeastReaching(samples: seq<Micros>, k: nat, hi: Micros) returns (s: Micros)
    requires 1 <= k && (hi == MAX_U64 ==> k <= |samples|) && (hi < MAX_U64 ==> k <= Count(samples, AtMost(hi)))
    ensures KthSmallest(samples, k, s)
    decreases hi
  {
    EverythingAtMost(samples);
    UnderIsAtMost(samples, hi);
    if Count(samples, Under(hi)) >= k {
      s := LeastReaching(samples, k, hi - 1);
    } else {
      s := hi;
      if s !in samples {
        NoneAtMost(samples, s);
      }
    }
  }

  class LatencyDigest {
    const counts: array<nat>
    var total: nat
    var sumUs: nat
    var minUs: nat
    var maxUs: nat

    ghost function Value(): State
      reads this, counts
    {
      State(counts[..], total, sumUs, minUs, maxUs)
    }

    constructor ()
      ensures fresh(counts) && Holds(Value(), []) && Spans(Value(), [])
    {
      counts := new nat[BUCKETS](_ => 0);
      total, sumUs, minUs, maxUs := 0, 0, MAX_U64, 0;
    }

    method Record(micros: Micros)
      requires counts.Length == BUCKETS
      modifies this, counts
      ensures Value() == Recorded(old(Value()), micros)
    {
      var idx := BucketOf(micros);
      counts[idx] := SaturatingAdd(counts[idx], 1);
      total := SaturatingAdd(total, 1);
      sumUs := SaturatingAdd(sumUs, micros);
      minUs := if micros < minUs then micros else minUs;
      maxUs := if micros > maxUs then micros else maxUs;
    }

    method QuantileUs(q: real) returns (r: Option<nat>)
      ensures r == Quantile(Value(), q)
    {
      if total == 0 {
        return None;
      }
      var target := Rank(q, total);
      var seen := 0;
      for i := 0 to counts.Length
        invariant seen == Sum(counts[..], i)
        invariant FirstReaching(counts[..], target, 0) == FirstReaching(counts[..], target, i)
      {
        seen := seen + counts[i];
        if seen >= target {
          return Some(UpperEdge(i));
        }
      }
      r := Some(maxUs);
    }
  }
}
