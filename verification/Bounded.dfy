/** Capacity management of the bounded tables (src/bounded.rs). Keys are naturals in key order. */
module Bounded {
  import opened Powers
  import opened Sets

  // ---------------------------------------------------------------------------------------------
  // Key order

  lemma {:induction false} HasLeast(s: set<nat>, n: nat, x: nat)
    requires x in s && forall j :: j in s ==> n <= j
    ensures exists k :: k in s && forall j :: j in s ==> k <= j
    decreases x - n
  {
    if n !in s {
      HasLeast(s, n + 1, x);
    }
  }

  function Least(s: set<nat>): (k: nat)
    requires s != {}
    ensures k in s && forall j :: j in s ==> k <= j
  {
    assert exists k :: k in s && forall j :: j in s ==> k <= j by {
      var x :| x in s;
      HasLeast(s, 0, x);
    }
    var k :| k in s && forall j :: j in s ==> k <= j;
    k
  }

  predicate Ascending(keys: seq<nat>) {
    forall i, j :: 0 <= i < j < |keys| ==> keys[i] < keys[j]
  }

  /** The iteration order of an ordered map. */
  function InOrder(s: set<nat>): seq<nat>
    decreases s
  {
    if s == {} then [] else [Least(s)] + InOrder(s - {Least(s)})
  }

  ghost predicate Lists(keys: seq<nat>, s: set<nat>) {
    |keys| == |s| && Ascending(keys) && forall i :: 0 <= i < |keys| ==> keys[i] in s
  }

  lemma {:induction false} InOrderLists(s: set<nat>)
    ensures Lists(InOrder(s), s)
    decreases s
  {
    if s != {} {
      var k, rest := Least(s), InOrder(s - {Least(s)});
      InOrderLists(s - {k});
      assert InOrder(s) == [k] + rest;
      forall i | 0 <= i < |rest| ensures k < rest[i] {
        assert rest[i] in s - {k};
      }
    }
  }

  lemma {:induction false} Position(s: set<nat>, k: nat) returns (i: nat)
    requires k in s
    ensures i < |InOrder(s)| && InOrder(s)[i] == k
    decreases s
  {
    if k == Least(s) {
      i := 0;
    } else {
      var j := Position(s - {Least(s)}, k);
      i := j + 1;
    }
  }

  // ---------------------------------------------------------------------------------------------
  // The three passes

  /** The entries no older than `cut`. */
  function Fresh<V>(m: map<nat, V>, cut: int, stamp: V -> int): map<nat, V> {
    map k | k in m && stamp(m[k]) >= cut :: m[k]
  }

  /** Every `stride`-th of the first `n` keys. */
  function Every(keys: seq<nat>, stride: nat, n: nat): set<nat>
    requires n <= |keys| && stride > 0
  {
    if n == 0 then {}
    else if n % stride == 0 then Every(keys, stride, n - 1) + {keys[n - 1]}
    else Every(keys, stride, n - 1)
  }

  /** The first key in order with the smallest stamp among the first `n`. */
  function Oldest<V>(m: map<nat, V>, keys: seq<nat>, stamp: V -> int, n: nat): (k: nat)
    requires 0 < n <= |keys| && Lists(keys, m.Keys)
    ensures k in m && forall i :: 0 <= i < n ==> stamp(m[k]) <= stamp(m[keys[i]])
  {
    if n == 1 then keys[0]
    else
      var k := Oldest(m, keys, stamp, n - 1);
      if stamp(m[keys[n - 1]]) < stamp(m[k]) then keys[n - 1] else k
  }

  function AtLeastTwo(stride: nat): nat {
    if stride < 2 then 2 else stride
  }

  /** What `evict_for_capacity` leaves. */
  function Evicted<V>(m: map<nat, V>, cut: int, stride: nat, stamp: V -> int): map<nat, V> {
    var keys := InOrder(m.Keys);
    InOrderLists(m.Keys);
    if |m| == 0 then m
    else if |Fresh(m, cut, stamp)| < |m| then Fresh(m, cut, stamp)
    else if |m| >= AtLeastTwo(stride) then m - Every(keys, AtLeastTwo(stride), |keys|)
    else m - {Oldest(m, keys, stamp, |keys|)}
  }

  // ---------------------------------------------------------------------------------------------
  // The contract

  lemma {:induction false} EveryHas(keys: seq<nat>, stride: nat, n: nat, i: nat)
    requires n <= |keys| && i < |keys| && stride > 0 && Ascending(keys)
    ensures keys[i] in Every(keys, stride, n) <==> i < n && (i + 1) % stride == 0
  {
    if n > 0 {
      EveryHas(keys, stride, n - 1, i);
      assert i != n - 1 ==> keys[i] != keys[n - 1];
    }
  }

  lemma {:induction false} EveryCounts(keys: seq<nat>, stride: nat, n: nat)
    requires n <= |keys| && stride > 0 && Ascending(keys)
    ensures |Every(keys, stride, n)| == n / stride
  {
    if n > 0 {
      EveryCounts(keys, stride, n - 1);
      EveryHas(keys, stride, n - 1, n - 1);
      DivStep(n, stride);
      AddOne(Every(keys, stride, n - 1), keys[n - 1]);
    }
  }

  lemma {:induction false} EveryWithin(keys: seq<nat>, stride: nat, n: nat, s: set<nat>)
    requires n <= |keys| && stride > 0 && forall i :: 0 <= i < |keys| ==> keys[i] in s
    ensures Every(keys, stride, n) <= s
  {
    if n > 0 {
      EveryWithin(keys, stride, n - 1, s);
    }
  }

  lemma DivStep(n: nat, s: nat)
    requires n > 0 && s > 0
    ensures n / s == (n - 1) / s + if n % s == 0 then 1 else 0
  {
    var q, r := (n - 1) / s, (n - 1) % s;
    assert n - 1 == q * s + r;
    if r + 1 < s {
      DivMod(n, s, q, r + 1);
    } else {
      assert (q + 1) * s == q * s + s;
      DivMod(n, s, q + 1, 0);
    }
  }

  lemma Without<V>(m: map<nat, V>, gone: set<nat>)
    requires gone <= m.Keys
    ensures (m - gone).Keys == m.Keys - gone && |m - gone| == |m| - |gone|
  {
    assert (m - gone).Keys == m.Keys - gone;
    assert |m.Keys - gone| == |m.Keys| - |gone|;
  }

  /** The stale pass frees something exactly if something is stale. */
  lemma FreshShrinks<V>(m: map<nat, V>, cut: int, stamp: V -> int)
    ensures |Fresh(m, cut, stamp)| < |m| <==> exists k :: k in m && stamp(m[k]) < cut
    ensures |Fresh(m, cut, stamp)| <= |m|
  {
    var f := Fresh(m, cut, stamp);
    Smaller(f.Keys, m.Keys);
    if k :| k in m && stamp(m[k]) < cut {
      assert f.Keys <= m.Keys - {k};
      Smaller(f.Keys, m.Keys - {k});
    } else {
      assert f.Keys == m.Keys;
    }
  }

  ghost predicate AllFresh<V>(m: map<nat, V>, cut: int, stamp: V -> int) {
    forall k :: k in m ==> stamp(m[k]) >= cut
  }

  /** If any entry is stale, exactly the stale ones go. */
  lemma StalePass<V>(m: map<nat, V>, cut: int, stride: nat, stamp: V -> int)
    requires !AllFresh(m, cut, stamp)
    ensures var kept := Evicted(m, cut, stride, stamp);
            && (forall k :: k in kept <==> k in m && stamp(m[k]) >= cut)
            && (forall k :: k in kept ==> kept[k] == m[k]) && |kept| < |m|
  {
    FreshShrinks(m, cut, stamp);
  }

  lemma NothingStale<V>(m: map<nat, V>, cut: int, stride: nat, stamp: V -> int, s: nat, keys: seq<nat>)
    requires AllFresh(m, cut, stamp) && |m| > 0 && s == AtLeastTwo(stride) && keys == InOrder(m.Keys)
    ensures Lists(keys, m.Keys)
    ensures |m| >= s ==> Evicted(m, cut, stride, stamp) == m - Every(keys, s, |keys|)
    ensures |m| < s ==> Evicted(m, cut, stride, stamp) == m - {Oldest(m, keys, stamp, |keys|)}
  {
    InOrderLists(m.Keys);
    FreshShrinks(m, cut, stamp);
  }

  lemma ThinnedOut<V>(m: map<nat, V>, keys: seq<nat>, s: nat)
    requires Lists(keys, m.Keys) && |m| >= s > 0
    ensures var kept := m - Every(keys, s, |keys|);
            && |kept| == |m| - |m| / s < |m|
            && forall i :: 0 <= i < |keys| ==> (keys[i] in kept <==> (i + 1) % s != 0)
  {
    EveryCounts(keys, s, |keys|);
    EveryWithin(keys, s, |keys|, m.Keys);
    forall i | 0 <= i < |keys| ensures keys[i] in Every(keys, s, |keys|) <==> (i + 1) % s == 0 {
      EveryHas(keys, s, |keys|, i);
    }
    Without(m, Every(keys, s, |keys|));
    AtLeastOne(|m|, s);
  }

  /** Otherwise every `stride`-th in key order goes: floor(n / stride) of them. */
  lemma StridePass<V>(m: map<nat, V>, cut: int, stride: nat, stamp: V -> int, s: nat, keys: seq<nat>)
    requires AllFresh(m, cut, stamp) && |m| >= s && s == (if stride < 2 then 2 else stride) && keys == InOrder(m.Keys)
    ensures var kept := Evicted(m, cut, stride, stamp);
            && |kept| == |m| - |m| / s < |m|
            && (forall k :: k in kept ==> k in m && kept[k] == m[k])
            && (forall i :: 0 <= i < |keys| ==> (keys[i] in kept <==> (i + 1) % s != 0))
  {
    NothingStale(m, cut, stride, stamp, s, keys);
    ThinnedOut(m, keys, s);
  }

  /** Or the oldest one, if there are fewer than `stride`. */
  lemma OldestPass<V>(m: map<nat, V>, cut: int, stride: nat, stamp: V -> int) returns (o: nat)
    requires AllFresh(m, cut, stamp) && 0 < |m| < (if stride < 2 then 2 else stride)
    ensures o in m && (forall k :: k in m ==> stamp(m[o]) <= stamp(m[k]))
    ensures Evicted(m, cut, stride, stamp) == m - {o} && |m - {o}| == |m| - 1
  {
    var keys := InOrder(m.Keys);
    NothingStale(m, cut, stride, stamp, AtLeastTwo(stride), keys);
    o := Oldest(m, keys, stamp, |keys|);
    OldestIsLeast(m, keys, stamp);
    Without(m, {o});
  }

  /** Whatever goes is stamped no later than anything that stays. */
  ghost predicate OldestGo<V>(m: map<nat, V>, kept: map<nat, V>, stamp: V -> int) {
    forall k, j :: k in m && k !in kept && j in m && j in kept ==> stamp(m[k]) <= stamp(m[j])
  }

  /** Among `keys`, every one at a multiple of `s` is stamped no later than any other. */
  ghost predicate MultiplesOldest<V>(m: map<nat, V>, keys: seq<nat>, s: nat, stamp: V -> int)
    requires s > 0 && forall i :: 0 <= i < |keys| ==> keys[i] in m
  {
    forall i, j :: 0 <= i < |keys| && 0 <= j < |keys| && (i + 1) % s == 0 && (j + 1) % s != 0 ==>
      stamp(m[keys[i]]) <= stamp(m[keys[j]])
  }

  /** A sweep respects recency exactly if something is stale, fewer than `stride` entries are held, or the
      entries at multiples of the stride happen to be the oldest. */
  lemma OldestGoWhen<V>(m: map<nat, V>, cut: int, stride: nat, stamp: V -> int, s: nat, keys: seq<nat>)
    requires s == (if stride < 2 then 2 else stride) && keys == InOrder(m.Keys) && Lists(keys, m.Keys)
    ensures OldestGo(m, Evicted(m, cut, stride, stamp), stamp) <==>
            !AllFresh(m, cut, stamp) || |m| < s || MultiplesOldest(m, keys, s, stamp)
  {
    hide Evicted, InOrder;
    if !AllFresh(m, cut, stamp) {
      StalePass(m, cut, stride, stamp);
    } else if |m| >= s {
      StridePass(m, cut, stride, stamp, s, keys);
      StrideOrder(m, Evicted(m, cut, stride, stamp), keys, s, stamp);
    } else if |m| > 0 {
      var o := OldestPass(m, cut, stride, stamp);
    }
  }

  lemma StrideOrder<V>(m: map<nat, V>, kept: map<nat, V>, keys: seq<nat>, s: nat, stamp: V -> int)
    requires s > 0 && keys == InOrder(m.Keys) && Lists(keys, m.Keys)
    requires forall i :: 0 <= i < |keys| ==> (keys[i] in kept <==> (i + 1) % s != 0)
    ensures OldestGo(m, kept, stamp) <==> MultiplesOldest(m, keys, s, stamp)
  {
    hide InOrder;
    if MultiplesOldest(m, keys, s, stamp) {
      forall k, j | k in m && k !in kept && j in m && j in kept ensures stamp(m[k]) <= stamp(m[j]) {
        var p := Position(m.Keys, k);
        var q := Position(m.Keys, j);
      }
    }
  }

  /** `kept` is part of `all`. */
  ghost predicate Within<V>(kept: map<nat, V>, all: map<nat, V>) {
    forall k :: k in kept ==> k in all && kept[k] == all[k]
  }

  /** Whatever is kept is unchanged, and a table that is not empty always loses something. */
  lemma EvictionContract<V>(m: map<nat, V>, cut: int, stride: nat, stamp: V -> int)
    ensures Within(Evicted(m, cut, stride, stamp), m)
    ensures |Evicted(m, cut, stride, stamp)| <= |m| && (|Evicted(m, cut, stride, stamp)| < |m| <==> |m| > 0)
  {
    if !AllFresh(m, cut, stamp) {
      StalePass(m, cut, stride, stamp);
    } else if |m| >= AtLeastTwo(stride) {
      StridePass(m, cut, stride, stamp, AtLeastTwo(stride), InOrder(m.Keys));
    } else if |m| > 0 {
      var o := OldestPass(m, cut, stride, stamp);
    }
  }

  lemma OldestIsLeast<V>(m: map<nat, V>, keys: seq<nat>, stamp: V -> int)
    requires |keys| > 0 && Lists(keys, m.Keys) && keys == InOrder(m.Keys)
    ensures var o := Oldest(m, keys, stamp, |keys|); o in m && forall k :: k in m ==> stamp(m[o]) <= stamp(m[k])
  {
    var o := Oldest(m, keys, stamp, |keys|);
    forall k | k in m ensures stamp(m[o]) <= stamp(m[k]) {
      var i := Position(m.Keys, k);
    }
  }

  lemma AtLeastOne(n: nat, s: nat)
    requires n >= s > 0
    ensures n / s >= 1 && n <= 2 * s * (n / s)
  {
    var q, r := n / s, n % s;
    assert n == q * s + r;
    assert q < 1 ==> q * s <= 0;
    assert q * s >= s;
    assert 2 * s * q == 2 * (q * s);
  }

  // ---------------------------------------------------------------------------------------------
  // The passes of the program, and how many entries they visit

  /** How many entries a sweep visits: all of them, once per pass it makes. */
  function Visited<V>(m: map<nat, V>, cut: int, stride: nat, stamp: V -> int): nat {
    if |Fresh(m, cut, stamp)| < |m| then |m| else if |m| >= AtLeastTwo(stride) then 2 * |m| else 3 * |m|
  }

  method RetainFresh<V>(m: map<nat, V>, keys: seq<nat>, cut: int, stamp: V -> int)
    returns (kept: map<nat, V>, ghost visits: nat)
    requires Lists(keys, m.Keys) && keys == InOrder(m.Keys)
    ensures kept == Fresh(m, cut, stamp) && visits == |m|
  {
    kept, visits := m, 0;
    for i := 0 to |keys|
      invariant visits == i
      invariant forall k :: k in kept ==> k in m && kept[k] == m[k]
      invariant forall j :: 0 <= j < |keys| ==> (keys[j] in kept <==> j >= i || stamp(m[keys[j]]) >= cut)
    {
      visits := visits + 1;
      if stamp(m[keys[i]]) < cut {
        kept := kept - {keys[i]};
      }
    }
    forall k | k in m ensures k in kept <==> stamp(m[k]) >= cut {
      var j := Position(m.Keys, k);
    }
  }

  method RetainMost<V>(m: map<nat, V>, keys: seq<nat>, stride: nat)
    returns (kept: map<nat, V>, ghost visits: nat)
    requires Lists(keys, m.Keys) && stride > 0
    ensures kept == m - Every(keys, stride, |keys|) && visits == |m|
  {
    kept, visits := m, 0;
    var idx := 0;
    for i := 0 to |keys|
      invariant visits == i
      invariant idx == i && kept == m - Every(keys, stride, i)
    {
      idx, visits := idx + 1, visits + 1;
      if idx % stride == 0 {
        kept := kept - {keys[i]};
      }
    }
  }

  method FindOldest<V>(m: map<nat, V>, keys: seq<nat>, stamp: V -> int)
    returns (k: nat, ghost visits: nat)
    requires Lists(keys, m.Keys) && |keys| > 0
    ensures k == Oldest(m, keys, stamp, |keys|) && visits == |m|
  {
    k, visits := keys[0], 1;
    for i := 1 to |keys|
      invariant visits == i
      invariant k == Oldest(m, keys, stamp, i)
    {
      visits := visits + 1;
      if stamp(m[keys[i]]) < stamp(m[k]) {
        k := keys[i];
      }
    }
  }

  /** `evict_for_capacity`. */
  method EvictForCapacity<V>(m: map<nat, V>, cut: int, stride: nat, stamp: V -> int)
    returns (kept: map<nat, V>, freed: nat, ghost visits: nat)
    ensures kept == Evicted(m, cut, stride, stamp)
    ensures freed == |m| - |kept| && (freed > 0 <==> |m| > 0)
    ensures visits == Visited(m, cut, stride, stamp)
  {
    EvictionContract(m, cut, stride, stamp);
    if |m| == 0 {
      return m, 0, 0;
    }
    var keys := InOrder(m.Keys);
    InOrderLists(m.Keys);
    kept, visits := RetainFresh(m, keys, cut, stamp);
    FreshShrinks(m, cut, stamp);
    if |kept| < |m| {
      freed := |m| - |kept|;
      return;
    }
    NothingStale(m, cut, stride, stamp, AtLeastTwo(stride), keys);
    ThinnedSize(m, keys, AtLeastTwo(stride));
    ghost var more;
    kept, more := RetainMost(m, keys, AtLeastTwo(stride));
    visits := visits + more;
    if |kept| == |m| {
      var k, rest := FindOldest(m, keys, stamp);
      visits := visits + rest;
      kept := kept - {k};
    }
    freed := |m| - |kept|;
  }

  lemma ThinnedSize<V>(m: map<nat, V>, keys: seq<nat>, s: nat)
    requires Lists(keys, m.Keys) && s > 0
    ensures |m - Every(keys, s, |keys|)| == |m| <==> |m| < s
    ensures |m| < s ==> m - Every(keys, s, |keys|) == m
  {
    if |m| >= s {
      hide Every;
      ThinnedOut(m, keys, s);
    } else {
      EveryCounts(keys, s, |keys|);
      DivMod(|m|, s, 0, |m|);
      hide Every;
      assert Every(keys, s, |keys|) == {};
    }
  }

  // ---------------------------------------------------------------------------------------------
  // Amortised cost

  /** A table whose values are their own stamps, and how many entries its sweeps have visited. */
  datatype Table = Table(entries: map<nat, int>, visited: nat)

  function Same(t: int): int { t }

  /** What every caller does with a new key: sweep if the table is full, then insert. */
  function Insert(t: Table, key: nat, now: int, cut: int, cap: nat, stride: nat): Table {
    if |t.entries| < cap then t.(entries := t.entries[key := now])
    else Table(Evicted(t.entries, cut, stride, Same)[key := now], t.visited + Visited(t.entries, cut, stride, Same))
  }

  datatype Arrival = Arrival(key: nat, now: int)

  /** A known key has its stamp refreshed, which visits nothing; a new one is inserted. */
  function Arrived(t: Table, a: Arrival, cut: int, cap: nat, stride: nat): Table {
    if a.key in t.entries then t.(entries := t.entries[a.key := a.now]) else Insert(t, a.key, a.now, cut, cap, stride)
  }

  ghost predicate Step(t: Table, a: Arrival, t': Table, retention: int, cap: nat, stride: nat) {
    t' == Arrived(t, a, a.now - retention, cap, stride)
  }

  /** `ts` are the states of a table that starts empty and takes one arrival after another. */
  ghost predicate IsRun(ts: seq<Table>, arrivals: seq<Arrival>, retention: int, cap: nat, stride: nat) {
    && |ts| == |arrivals| + 1 && ts[0] == Table(map[], 0)
    && forall i :: 0 <= i < |arrivals| ==> Step(ts[i], arrivals[i], ts[i + 1], retention, cap, stride)
  }

  /** A sweep is paid for if it visits at most 4 * stride entries for each one it drops. */
  ghost predicate PaidFor<V>(m: map<nat, V>, cut: int, stride: nat, stamp: V -> int) {
    Visited(m, cut, stride, stamp) <= 4 * AtLeastTwo(stride) * (|m| - |Evicted(m, cut, stride, stamp)|)
  }

  /** The table has no room for this arrival: it is swept. */
  ghost predicate Sweeps(t: Table, a: Arrival, cap: nat) {
    a.key !in t.entries && |t.entries| >= cap
  }

  /** Every sweep made for an arrival is paid for. */
  ghost predicate AllPaid(ts: seq<Table>, arrivals: seq<Arrival>, retention: int, cap: nat, stride: nat)
    requires |ts| == |arrivals| + 1
  {
    forall i :: 0 <= i < |arrivals| && Sweeps(ts[i], arrivals[i], cap) ==>
      PaidFor(ts[i].entries, arrivals[i].now - retention, stride, Same)
  }

  /** How many of the first `n` arrivals brought a new key. */
  function NewKeys(ts: seq<Table>, arrivals: seq<Arrival>, n: nat): nat
    requires n <= |arrivals| < |ts|
  {
    if n == 0 then 0
    else NewKeys(ts, arrivals, n - 1) + if arrivals[n - 1].key in ts[n - 1].entries then 0 else 1
  }

  /** So a stream whose sweeps never find anything stale pays for all of them. */
  lemma FreshStreamPays(ts: seq<Table>, arrivals: seq<Arrival>, retention: int, cap: nat, stride: nat)
    requires |ts| == |arrivals| + 1
    requires forall i :: 0 <= i < |arrivals| && Sweeps(ts[i], arrivals[i], cap) ==>
               AllFresh(ts[i].entries, arrivals[i].now - retention, Same)
    ensures AllPaid(ts, arrivals, retention, cap, stride)
  {
    hide PaidFor, AllFresh, Sweeps;
    forall i | 0 <= i < |arrivals| && Sweeps(ts[i], arrivals[i], cap)
      ensures PaidFor(ts[i].entries, arrivals[i].now - retention, stride, Same)
    {
      FreshIsPaid(ts[i].entries, arrivals[i].now - retention, stride, Same, AtLeastTwo(stride));
    }
  }

  lemma TwicePaid(n: nat, s: nat)
    requires n >= s > 0
    ensures 2 * n <= 4 * s * (n / s)
  {
    AtLeastOne(n, s);
    var q := n / s;
    assert 4 * s * q == 2 * (2 * s * q);
  }

  /** A sweep that finds nothing stale pays for itself. */
  lemma FreshIsPaid<V>(m: map<nat, V>, cut: int, stride: nat, stamp: V -> int, s: nat)
    requires AllFresh(m, cut, stamp) && s == AtLeastTwo(stride)
    ensures PaidFor(m, cut, stride, stamp)
  {
    var freed, cost := |m| - |Evicted(m, cut, stride, stamp)|, Visited(m, cut, stride, stamp);
    FreshCost(m, cut, stride, stamp, s, freed);
    hide Evicted, Visited, AllFresh;
    if |m| >= s {
      TwicePaid(|m|, s);
    } else if |m| > 0 {
      assert 4 * s * 1 == 4 * s;
    }
  }

  lemma FreshCost<V>(m: map<nat, V>, cut: int, stride: nat, stamp: V -> int, s: nat, freed: int)
    requires AllFresh(m, cut, stamp) && s == AtLeastTwo(stride)
    requires freed == |m| - |Evicted(m, cut, stride, stamp)|
    ensures |m| >= s ==> Visited(m, cut, stride, stamp) == 2 * |m| && freed == |m| / s
    ensures |m| < s ==> Visited(m, cut, stride, stamp) == 3 * |m| && freed == if |m| > 0 then 1 else 0
  {
    FreshShrinks(m, cut, stamp);
    hide Fresh;
    if |m| >= s {
      StridePass(m, cut, stride, stamp, s, InOrder(m.Keys));
    } else if |m| > 0 {
      var o := OldestPass(m, cut, stride, stamp);
    }
  }

  /** A sweep is paid for exactly if nothing is stale, or enough is: one entry in 4 * stride. */
  lemma SweepIsPaid<V>(m: map<nat, V>, cut: int, stride: nat, stamp: V -> int, s: nat)
    requires s == (if stride < 2 then 2 else stride)
    ensures PaidFor(m, cut, stride, stamp) <==>
            AllFresh(m, cut, stamp) || |m| <= 4 * s * (|m| - |Fresh(m, cut, stamp)|)
  {
    FreshShrinks(m, cut, stamp);
    if AllFresh(m, cut, stamp) {
      FreshIsPaid(m, cut, stride, stamp, s);
    }
  }

  lemma Balance(s: nat, visited: nat, size: nat, kept: nat, spent: nat, n: nat)
    requires visited + 4 * s * size <= 4 * s * (n - 1) && kept <= size && spent <= 4 * s * (size - kept)
    ensures visited + spent + 4 * s * (kept + 1) <= 4 * s * n
  {
    assert 4 * s * n == 4 * s * (n - 1) + 4 * s;
    assert 4 * s * (size - kept) == 4 * s * size - 4 * s * kept;
    assert 4 * s * (kept + 1) == 4 * s * kept + 4 * s;
  }

  /** One insertion of a new key, its sweep paid for. */
  lemma InsertPays(t: Table, key: nat, now: int, cut: int, cap: nat, stride: nat, s: nat, n: nat)
    requires key !in t.entries && s == AtLeastTwo(stride) && n > 0
    requires |t.entries| >= cap ==> PaidFor(t.entries, cut, stride, Same)
    requires t.visited + 4 * s * |t.entries| <= 4 * s * (n - 1)
    ensures var t' := Insert(t, key, now, cut, cap, stride); t'.visited + 4 * s * |t'.entries| <= 4 * s * n
  {
    if |t.entries| < cap {
      Balance(s, t.visited, |t.entries|, |t.entries|, 0, n);
      GrowByOne(t.entries, key, now);
    } else {
      var kept := Evicted(t.entries, cut, stride, Same);
      EvictionContract(t.entries, cut, stride, Same);
      hide Evicted, Visited;
      GrowByOne(kept, key, now);
      Balance(s, t.visited, |t.entries|, |kept|, Visited(t.entries, cut, stride, Same), n);
    }
  }

  lemma ArrivalPays(t: Table, a: Arrival, cut: int, cap: nat, stride: nat, s: nat, n: nat)
    requires s == AtLeastTwo(stride) && (Sweeps(t, a, cap) ==> PaidFor(t.entries, cut, stride, Same))
    requires t.visited + 4 * s * |t.entries| <= 4 * s * n
    ensures var t', n' := Arrived(t, a, cut, cap, stride), if a.key in t.entries then n else n + 1;
            t'.visited + 4 * s * |t'.entries| <= 4 * s * n'
  {
    hide Insert, PaidFor;
    if a.key in t.entries {
      assert t.entries[a.key := a.now].Keys == t.entries.Keys;
    } else {
      InsertPays(t, a.key, a.now, cut, cap, stride, s, n + 1);
    }
  }

  /** Every entry then pays for its own eviction: a stream of arrivals whose sweeps are all paid for visits
      at most 4 * stride entries for each new key it brought, whatever the capacity, and however often
      known keys are hit in between. */
  lemma {:induction false} AmortisedCost(ts: seq<Table>, arrivals: seq<Arrival>, retention: int, cap: nat, stride: nat,
                                         s: nat, n: nat)
    requires IsRun(ts, arrivals, retention, cap, stride) && AllPaid(ts, arrivals, retention, cap, stride)
    requires s == (if stride < 2 then 2 else stride) && n <= |arrivals|
    ensures ts[n].visited + 4 * s * |ts[n].entries| <= 4 * s * NewKeys(ts, arrivals, n)
  {
    hide PaidFor, Arrived, Sweeps;
    if n > 0 {
      AmortisedCost(ts, arrivals, retention, cap, stride, s, n - 1);
      var t, a := ts[n - 1], arrivals[n - 1];
      assert Step(t, a, ts[n], retention, cap, stride);
      ArrivalPays(t, a, a.now - retention, cap, stride, s, NewKeys(ts, arrivals, n - 1));
    }
  }

  lemma GrowByOne(m: map<nat, int>, k: nat, v: int)
    requires k !in m
    ensures |m[k := v]| == |m| + 1
  {
    assert m[k := v].Keys == m.Keys + {k};
  }

  /** One arrival per tick, each with its own key. */
  function Ticks(n: nat): (a: seq<Arrival>)
    ensures |a| == n && forall i :: 0 <= i < n ==> a[i] == Arrival(i, i)
  {
    seq(n, i requires 0 <= i => Arrival(i, i))
  }

  /** The keys `lo` to `hi - 1`, each stamped with itself. */
  function Span(lo: nat, hi: nat): map<nat, int> {
    if lo >= hi then map[] else Span(lo, hi - 1)[hi - 1 := hi - 1]
  }

  lemma {:induction false} SpanIs(lo: nat, hi: nat)
    requires lo <= hi
    ensures forall k :: k in Span(lo, hi) <==> lo <= k < hi
    ensures forall k :: k in Span(lo, hi) ==> Span(lo, hi)[k] == k
    ensures |Span(lo, hi)| == hi - lo
    decreases hi
  {
    if lo < hi {
      SpanIs(lo, hi - 1);
      GrowByOne(Span(lo, hi - 1), hi - 1, hi - 1);
    }
  }

  lemma TrickleStep(lo: nat, hi: nat, stride: nat)
    requires lo < hi
    ensures Evicted(Span(lo, hi), lo + 1, stride, Same) == Span(lo + 1, hi)
    ensures Visited(Span(lo, hi), lo + 1, stride, Same) == hi - lo
  {
    var m := Span(lo, hi);
    SpanIs(lo, hi);
    SpanIs(lo + 1, hi);
    assert lo in m && Same(m[lo]) < lo + 1;
    FreshShrinks(m, lo + 1, Same);
    assert Fresh(m, lo + 1, Same) == Span(lo + 1, hi);
  }

  lemma FullTable(n: nat, cap: nat, stride: nat, t: Table)
    requires 0 < cap <= n && t.entries == Span(n - cap, n)
    ensures Insert(t, n, n, n - (cap - 1), cap, stride) == Table(Span(n + 1 - cap, n + 1), t.visited + cap)
  {
    SpanIs(n - cap, n);
    TrickleStep(n - cap, n, stride);
  }

  /** The table after `n` ticks: the latest `cap` arrivals, every one of them paid for with a full sweep. */
  function Trickled(n: nat, cap: nat): Table {
    if n <= cap then Table(Span(0, n), 0) else Table(Span(n - cap, n), cap * (n - cap))
  }

  lemma RoomLeft(n: nat, cap: nat, stride: nat, t: Table)
    requires n < cap && t.entries == Span(0, n)
    ensures Insert(t, n, n, n - (cap - 1), cap, stride) == Table(Span(0, n + 1), t.visited)
  {
    SpanIs(0, n);
  }

  lemma TrickledIs(n: nat, cap: nat, t: Table)
    requires t == Trickled(n, cap)
    ensures t.entries == Span(if n < cap then 0 else n - cap, n) && n !in t.entries
    ensures n < cap ==> t.visited == 0
    ensures n >= cap ==> t.visited == cap * (n - cap)
  {
    SpanIs(if n < cap then 0 else n - cap, n);
    hide Span;
    assert n == cap ==> cap * (n - cap) == 0;
  }

  lemma TrickleStays(n: nat, cap: nat, stride: nat, t: Table, t': Table)
    requires cap > 0 && t == Trickled(n, cap) && t' == Trickled(n + 1, cap)
    ensures Step(t, Arrival(n, n), t', cap - 1, cap, stride)
  {
    hide Insert, Span, Trickled;
    TrickledIs(n, cap, t);
    TrickledIs(n + 1, cap, t');
    if n < cap {
      RoomLeft(n, cap, stride, t);
      assert n + 1 == cap ==> cap * (n + 1 - cap) == 0;
    } else {
      FullTable(n, cap, stride, t);
      assert cap * (n + 1 - cap) == cap * (n - cap) + cap;
    }
  }

  /** When one entry turns stale per insertion, the stale pass visits the whole table to free that one,
      every time. These sweeps are paid for exactly if the table holds at most 4 * stride entries. */
  lemma TrickleCost(n: nat, cap: nat, stride: nat) returns (ts: seq<Table>)
    requires 0 < cap <= n
    ensures IsRun(ts, Ticks(n), cap - 1, cap, stride) && ts[n].visited == cap * (n - cap)
    ensures forall i :: cap <= i < n ==>
              (PaidFor(ts[i].entries, i - (cap - 1), stride, Same) <==> cap <= 4 * AtLeastTwo(stride))
  {
    ts := seq(n + 1, i requires 0 <= i => Trickled(i, cap));
    assert ts[0] == Table(map[], 0);
    hide PaidFor;
    forall i | 0 <= i < n ensures Step(ts[i], Ticks(n)[i], ts[i + 1], cap - 1, cap, stride) {
      TrickleStays(i, cap, stride, ts[i], ts[i + 1]);
    }
    forall i | cap <= i < n
      ensures PaidFor(ts[i].entries, i - (cap - 1), stride, Same) <==> cap <= 4 * AtLeastTwo(stride)
    {
      TricklePaid(i, cap, stride);
    }
  }

  lemma TricklePaid(i: nat, cap: nat, stride: nat)
    requires 0 < cap <= i
    ensures PaidFor(Span(i - cap, i), i - (cap - 1), stride, Same) <==> cap <= 4 * AtLeastTwo(stride)
  {
    TrickleStep(i - cap, i, stride);
    SpanIs(i - cap, i);
    SpanIs(i - cap + 1, i);
    assert 4 * AtLeastTwo(stride) * 1 == 4 * AtLeastTwo(stride);
    hide Evicted, Visited, Span;
  }
}
