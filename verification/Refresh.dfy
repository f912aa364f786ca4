/** What a refresh plan achieves when it is carried out by cache key (src/provenance.rs). */
module Refresh {
  import opened Octets
  import opened Provenance
  import opened Risk
  import opened Sets

  /** The dependencies after the cache entries at `keys` have been refreshed to certainty: every dependency
      that lives at one of them gains. */
  function RefreshedAt(ds: seq<Dep>, keys: set<nat>): (r: seq<Dep>)
    ensures |r| == |ds|
    ensures forall i :: 0 <= i < |ds| ==> r[i] == if ds[i].key in keys then ds[i].(freshness := 1.0) else ds[i]
  {
    Map((d: Dep) => if d.key in keys then d.(freshness := 1.0) else d, ds)
  }

  function KeySet(ks: seq<nat>): set<nat> {
    set i | 0 <= i < |ks| :: ks[i]
  }

  /** The keys of the dependencies no fresher than `b`. */
  function KeysUpTo(ds: seq<Dep>, b: real): set<nat> {
    set i | 0 <= i < |ds| && ds[i].freshness <= b :: ds[i].key
  }

  function BoundAt(ds: seq<Dep>, r: real, keys: set<nat>): real {
    BoundOf(RefreshedAt(ds, keys), r)
  }

  /** No choice of at most `m` keys gives a higher bound than `keys`. */
  ghost predicate Optimal(ds: seq<Dep>, r: real, m: nat, keys: set<nat>) {
    forall other: set<nat> :: |other| <= m ==> BoundAt(ds, r, other) <= BoundAt(ds, r, keys)
  }

  lemma BoundAtIs(ds: seq<Dep>, r: real, keys: set<nat>)
    requires r <= 1.0
    ensures var b := BoundAt(ds, r, keys);
            && b <= r && (forall i :: 0 <= i < |ds| && ds[i].key !in keys ==> b <= ds[i].freshness)
            && (b == r || exists i :: 0 <= i < |ds| && ds[i].key !in keys && ds[i].freshness == b)
  {
    var t := RefreshedAt(ds, keys);
    BoundIs(t, r, |t|);
    hide Bound, RefreshedAt;
    forall i | 0 <= i < |ds| && ds[i].key !in keys ensures BoundAt(ds, r, keys) <= ds[i].freshness {
      assert t[i] == ds[i];
    }
    if BoundAt(ds, r, keys) != r {
      var i :| 0 <= i < |t| && t[i].freshness == BoundAt(ds, r, keys);
      assert ds[i].key !in keys;
    }
  }

  lemma UpToHas(ds: seq<Dep>, b: real)
    ensures forall i :: 0 <= i < |ds| && ds[i].freshness <= b ==> ds[i].key in KeysUpTo(ds, b)
    ensures forall k :: k in KeysUpTo(ds, b) ==> exists i :: 0 <= i < |ds| && ds[i].freshness <= b && ds[i].key == k
  {
  }

  /** A choice of keys is optimal if and only if it reaches the residual floor, or the dependencies no
      fresher than the bound it gives live at more than `m` keys. */
  lemma OptimalWhen(ds: seq<Dep>, r: real, m: nat, keys: set<nat>)
    requires r <= 1.0
    ensures Optimal(ds, r, m, keys) <==> BoundAt(ds, r, keys) == r || |KeysUpTo(ds, BoundAt(ds, r, keys))| > m
  {
    var b := BoundAt(ds, r, keys);
    var low := KeysUpTo(ds, b);
    BoundAtIs(ds, r, keys);
    UpToHas(ds, b);
    hide BoundAt, KeysUpTo;
    if b != r && |low| <= m {
      BoundAtIs(ds, r, low);
      assert BoundAt(ds, r, low) > b;
    } else {
      forall other: set<nat> | |other| <= m ensures BoundAt(ds, r, other) <= b {
        BoundAtIs(ds, r, other);
        if |low| > m {
          var k := Escapes(low, other);
          var i :| 0 <= i < |ds| && ds[i].freshness <= b && ds[i].key == k;
        }
      }
    }
  }

  /** So the plan of at most `max` keys, and at least one, is optimal exactly under that condition. */
  lemma PlanIsOptimalWhen(ds: seq<Dep>, r: real, max: nat)
    requires r <= 1.0
    ensures var keys := KeySet(RefreshPlan(ds, max));
            Optimal(ds, r, OneOrMore(max), keys) <==>
            BoundAt(ds, r, keys) == r || |KeysUpTo(ds, BoundAt(ds, r, keys))| > OneOrMore(max)
  {
    OptimalWhen(ds, r, OneOrMore(max), KeySet(RefreshPlan(ds, max)));
  }

  /** The first sorted position from `i` on that the plan leaves over. */
  function LeftOver(s: seq<Dep>, keys: set<nat>, i: nat): (j: Option<nat>)
    requires i <= |s|
    ensures j.Some? ==> j.value < |s|
    decreases |s| - i
  {
    if i == |s| then None else if s[i].key !in keys then Some(i) else LeftOver(s, keys, i + 1)
  }

  lemma {:induction false} LeftOverIs(s: seq<Dep>, keys: set<nat>, i: nat)
    requires i <= |s|
    ensures var j := LeftOver(s, keys, i);
            && (j.None? ==> forall p :: i <= p < |s| ==> s[p].key in keys)
            && (j.Some? ==> i <= j.value < |s| && s[j.value].key !in keys
                            && forall p :: i <= p < j.value ==> s[p].key in keys)
    decreases |s| - i
  {
    if i < |s| && s[i].key in keys {
      LeftOverIs(s, keys, i + 1);
    }
  }

  /** The bound after refreshing `keys` is set by the first sorted dependency left over. */
  lemma BoundIsLeftOver(ds: seq<Dep>, r: real, keys: set<nat>)
    requires r <= 1.0
    ensures var j := LeftOver(Sorted(ds), keys, 0);
            BoundAt(ds, r, keys) == if j.Some? then Min(r, Sorted(ds)[j.value].freshness) else r
  {
    var s, j := Sorted(ds), LeftOver(Sorted(ds), keys, 0);
    BoundAtIs(ds, r, keys);
    LeftOverIs(s, keys, 0);
    SortedIs(ds);
    hide BoundAt, Sorted, LeftOver;
    if BoundAt(ds, r, keys) != r {
      var i :| 0 <= i < |ds| && ds[i].key !in keys && ds[i].freshness == BoundAt(ds, r, keys);
      var p := SortedPosition(ds, i);
      assert j.value < p ==> Before(s[j.value], s[p]);
    }
    if j.Some? {
      var q := UnsortedPosition(ds, j.value);
      assert ds[q].key !in keys;
    }
  }

  /** In terms of the sorted list: the plan is optimal exactly if it leaves no dependency over below the
      residual floor, or the dependencies no fresher than the first one left over live at more keys than
      were asked for. */
  lemma PlanIsOptimalBySort(ds: seq<Dep>, r: real, max: nat, keys: set<nat>, j: Option<nat>)
    requires r <= 1.0 && keys == KeySet(RefreshPlan(ds, max)) && j == LeftOver(Sorted(ds), keys, 0)
    ensures Optimal(ds, r, OneOrMore(max), keys) <==>
            || j.None? || Sorted(ds)[j.value].freshness >= r
            || |KeysUpTo(ds, Sorted(ds)[j.value].freshness)| > OneOrMore(max)
  {
    LeftOverIs(Sorted(ds), keys, 0);
    BoundIsLeftOver(ds, r, keys);
    PlanIsOptimalWhen(ds, r, max);
    hide Sorted, KeysUpTo, Optimal, BoundAt, RefreshPlan, KeySet, LeftOver;
  }

  // ---------------------------------------------------------------------------------------------
  // Determinism

  lemma MutuallyBefore(a: Dep, b: Dep)
    requires Before(a, b) && Before(b, a)
    ensures a == b
  {
  }

  /** Nothing in an ordered list comes after its last element. */
  lemma LastIsLast(s: seq<Dep>, x: Dep)
    requires Ordered(s) && x in s
    ensures x == s[|s| - 1] || Before(x, s[|s| - 1])
  {
    hide Before;
    var i :| 0 <= i < |s| && s[i] == x;
    assert i < |s| - 1 ==> Before(s[i], s[|s| - 1]);
  }

  lemma SameLast(a: seq<Dep>, b: seq<Dep>)
    requires Ordered(a) && Ordered(b) && multiset(a) == multiset(b) && a != [] && b != []
    ensures a[|a| - 1] == b[|b| - 1]
  {
    hide Before, Ordered;
    var x, y := a[|a| - 1], b[|b| - 1];
    assert x in multiset(b) && y in multiset(a);
    LastIsLast(b, x);
    LastIsLast(a, y);
    if x != y {
      MutuallyBefore(x, y);
    }
  }

  lemma FrontOf(s: seq<Dep>, front: seq<Dep>, last: Dep)
    requires s != [] && front == s[..|s| - 1] && last == s[|s| - 1]
    ensures s == front + [last] && multiset(front) == multiset(s) - multiset{last}
    ensures Ordered(s) ==> Ordered(front)
  {
    hide Before;
    assert s == front + [last];
    MultisetSnoc(front, last);
  }

  lemma {:induction false} OrderedIsUnique(a: seq<Dep>, b: seq<Dep>)
    requires Ordered(a) && Ordered(b) && multiset(a) == multiset(b)
    ensures a == b
    decreases |a|
  {
    hide *;
    SameLength(a, b);
    if a != [] {
      var front, front', x, y := a[..|a| - 1], b[..|b| - 1], a[|a| - 1], b[|b| - 1];
      SameLast(a, b);
      FrontOf(a, front, x);
      FrontOf(b, front', y);
      OrderedIsUnique(front, front');
    }
  }

  lemma SameLength<T>(a: seq<T>, b: seq<T>)
    requires multiset(a) == multiset(b)
    ensures |a| == |b|
  {
    assert |a| == |multiset(a)| == |multiset(b)| == |b|;
  }

  /** The plan does not depend on the order in which dependencies were added: ties are broken by role and then
      by key. It names as many keys as were asked for, and at least one, if there are as many dependencies. */
  lemma PlanIsDeterministic(ds: seq<Dep>, ds': seq<Dep>, max: nat)
    requires multiset(ds) == multiset(ds')
    ensures RefreshPlan(ds, max) == RefreshPlan(ds', max)
    ensures |RefreshPlan(ds, max)| == if max >= |ds| then |ds| else if max == 0 then 1 else max
  {
    SortedIs(ds);
    SortedIs(ds');
    SortedSize(ds);
    hide Sorted, Ordered;
    OrderedIsUnique(Sorted(ds), Sorted(ds'));
  }

  /** Answers come before CNAMEs, those before DNAMEs, then delegations, addresses of name servers, and proofs. */
  predicate RolesInOrder(a: Role, b: Role) {
    match b
    case Answer => a.Answer?
    case Cname => a.Answer? || a.Cname?
    case Dname => !a.Delegation? && !a.NsAddress? && !a.DnssecProof?
    case Delegation => !a.NsAddress? && !a.DnssecProof?
    case NsAddress => !a.DnssecProof?
    case DnssecProof => true
  }

  /** The plan names the keys of the weakest dependencies first, equally fresh ones by role, and those of one role
      by key. */
  lemma PlanOrder(ds: seq<Dep>, max: nat, i: nat, j: nat)
    requires i < j < |RefreshPlan(ds, max)| && |RefreshPlan(ds, max)| <= |Sorted(ds)|
    ensures var a, b := Sorted(ds)[i], Sorted(ds)[j];
            && RefreshPlan(ds, max)[i] == a.key && RefreshPlan(ds, max)[j] == b.key
            && a.freshness <= b.freshness
            && (a.freshness == b.freshness ==> RolesInOrder(a.role, b.role))
            && (a.freshness == b.freshness && a.role == b.role ==> a.key <= b.key)
  {
    SortedIs(ds);
    SortedSize(ds);
    hide Sorted;
    assert Before(Sorted(ds)[i], Sorted(ds)[j]);
  }

  /** Building a set from a list does not depend on its order either, once the list is over the cap. */
  lemma BuildIsDeterministic(ds: seq<Dep>, ds': seq<Dep>, cap: nat)
    requires multiset(ds) == multiset(ds') && |ds| > cap && |ds| > 1
    ensures FromDependencies(ds, cap) == FromDependencies(ds', cap)
  {
    SortedIs(ds);
    SortedIs(ds');
    SameLength(ds, ds');
    hide Sorted, Ordered, Sifted;
    OrderedIsUnique(Sorted(ds), Sorted(ds'));
    SortedSum(ProofPart, ds);
    SortedSum(ProofPart, ds');
  }

  /** However it was built, a set holds all proofs, and as many others as there is room for beside them. */
  lemma HoldsAllItMay(s: Set, ds: seq<Dep>, cap: nat, c: nat)
    requires c == (if cap == 0 then 1 else cap) && (s == PushAll(ds, cap) || s == FromDependencies(ds, cap))
    ensures |Proofs(s.deps)| == |Proofs(ds)| && |s.deps| >= |Proofs(ds)|
    ensures |s.deps| == if |ds| <= c then |ds| else if |Proofs(ds)| >= c then |Proofs(ds)| else c
  {
    PushAllSummarises(ds, cap);
    FromDependenciesSummarises(ds, cap);
    Sizes(ds);
    Sizes(s.deps);
    hide PushAll, FromDependencies, Sum, IsFloor;
  }

  // ---------------------------------------------------------------------------------------------
  // Distinct keys

  ghost predicate DistinctKeys(ds: seq<Dep>) {
    forall i, j :: 0 <= i < j < |ds| ==> ds[i].key != ds[j].key
  }

  lemma {:induction false} KeyCount(s: seq<Dep>, n: nat) returns (keys: set<nat>)
    requires n <= |s| && DistinctKeys(s[..n])
    ensures |keys| == n && forall k :: k in keys <==> exists i :: 0 <= i < n && s[i].key == k
  {
    if n == 0 {
      keys := {};
    } else {
      assert s[..n - 1] == s[..n][..n - 1];
      var rest := KeyCount(s, n - 1);
      assert s[..n][n - 1] == s[n - 1];
      assert forall i :: 0 <= i < n - 1 ==> s[..n][i] == s[i];
      keys := rest + {s[n - 1].key};
    }
  }

  lemma PlanKeys(ds: seq<Dep>, max: nat, n: nat)
    requires n == if OneOrMore(max) < |ds| then OneOrMore(max) else |ds|
    ensures |Sorted(ds)| == |ds| && |RefreshPlan(ds, max)| == n
    ensures forall i :: 0 <= i < n ==> RefreshPlan(ds, max)[i] == Sorted(ds)[i].key
    ensures forall k :: k in KeySet(RefreshPlan(ds, max)) <==> exists i :: 0 <= i < n && Sorted(ds)[i].key == k
  {
    SortedSize(ds);
    hide Sorted;
    var plan := RefreshPlan(ds, max);
    assert forall i :: 0 <= i < n ==> plan[i] == Sorted(ds)[i].key;
    forall k | k in KeySet(plan) ensures exists i :: 0 <= i < n && Sorted(ds)[i].key == k {
      var i :| 0 <= i < |plan| && plan[i] == k;
      assert Sorted(ds)[i].key == k;
    }
    forall k | exists i :: 0 <= i < n && Sorted(ds)[i].key == k ensures k in KeySet(plan) {
      var i :| 0 <= i < n && Sorted(ds)[i].key == k;
      assert plan[i] == k;
    }
  }

  lemma SortedPosition(ds: seq<Dep>, i: nat) returns (j: nat)
    requires i < |ds|
    ensures j < |Sorted(ds)| && Sorted(ds)[j] == ds[i]
  {
    SortedIs(ds);
    hide Sorted, Ordered;
    assert ds[i] in multiset(Sorted(ds));
    assert ds[i] in Sorted(ds);
    j :| 0 <= j < |Sorted(ds)| && Sorted(ds)[j] == ds[i];
  }

  lemma UnsortedPosition(ds: seq<Dep>, j: nat) returns (i: nat)
    requires j < |Sorted(ds)|
    ensures i < |ds| && Sorted(ds)[j] == ds[i]
  {
    SortedIs(ds);
    hide Sorted, Ordered;
    assert Sorted(ds)[j] in multiset(ds);
    assert Sorted(ds)[j] in ds;
    i :| 0 <= i < |ds| && Sorted(ds)[j] == ds[i];
  }

  /** What the plan leaves over has every planned key among those no fresher, and its own. */
  lemma PlannedAreLow(ds: seq<Dep>, n: nat, i: nat, keys: set<nat>)
    requires n <= |Sorted(ds)| && i < |ds| && ds[i].key !in keys
    requires forall k :: k in keys <==> exists j :: 0 <= j < n && Sorted(ds)[j].key == k
    ensures keys + {ds[i].key} <= KeysUpTo(ds, ds[i].freshness)
  {
    var b := ds[i].freshness;
    SortedIs(ds);
    UpToHas(ds, b);
    var p := SortedPosition(ds, i);
    hide Sorted, KeysUpTo;
    forall k | k in keys ensures k in KeysUpTo(ds, b) {
      var j :| 0 <= j < n && Sorted(ds)[j].key == k;
      assert j < p by {
        assert p >= n;
      }
      assert Before(Sorted(ds)[j], Sorted(ds)[p]);
      var q := UnsortedPosition(ds, j);
    }
  }

  /** Bottleneck first is optimal among all choices of as many keys whenever the keys of the plan differ,
      in particular when no two dependencies share one. */
  lemma {:induction false} DistinctPlanIsOptimal(ds: seq<Dep>, r: real, max: nat, n: nat)
    requires r <= 1.0 && n == (if OneOrMore(max) < |ds| then OneOrMore(max) else |ds|)
    requires n <= |Sorted(ds)| && DistinctKeys(Sorted(ds)[..n])
    ensures Optimal(ds, r, OneOrMore(max), KeySet(RefreshPlan(ds, max)))
  {
    var keys := KeySet(RefreshPlan(ds, max));
    var b := BoundAt(ds, r, keys);
    PlanKeys(ds, max, n);
    var counted := KeyCount(Sorted(ds), n);
    assert counted == keys;
    BoundAtIs(ds, r, keys);
    PlanIsOptimalWhen(ds, r, max);
    hide Sorted, RefreshPlan, KeySet, BoundAt, KeysUpTo, Optimal, DistinctKeys;
    if b != r {
      var i :| 0 <= i < |ds| && ds[i].key !in keys && ds[i].freshness == b;
      PlannedAreLow(ds, n, i, keys);
      Smaller(keys + {ds[i].key}, KeysUpTo(ds, b));
      PlanIsFull(ds, n, i, keys);
    }
  }

  /** If the plan leaves a key over, it has as many as were asked for. */
  lemma PlanIsFull(ds: seq<Dep>, n: nat, i: nat, keys: set<nat>)
    requires n <= |Sorted(ds)| && i < |ds| && ds[i].key !in keys
    requires forall k :: k in keys <==> exists j :: 0 <= j < n && Sorted(ds)[j].key == k
    ensures n < |ds|
  {
    SortedSize(ds);
    var p := SortedPosition(ds, i);
  }

  lemma {:induction false} PlacedDistinct(s: seq<Dep>, d: Dep)
    requires DistinctKeys(s) && forall i :: 0 <= i < |s| ==> s[i].key != d.key
    ensures DistinctKeys(Placed(s, d))
  {
    if s != [] && !Before(s[|s| - 1], d) {
      var front, last := s[..|s| - 1], s[|s| - 1];
      PlacedDistinct(front, d);
      forall i | 0 <= i < |Placed(front, d)| ensures Placed(front, d)[i].key != last.key {
        PlacedHas(front, d, i);
      }
    }
  }

  lemma {:induction false} SortedDistinct(ds: seq<Dep>)
    requires DistinctKeys(ds)
    ensures DistinctKeys(Sorted(ds))
  {
    if ds != [] {
      var front, d := ds[..|ds| - 1], ds[|ds| - 1];
      SortedDistinct(front);
      forall i | 0 <= i < |Sorted(front)| ensures Sorted(front)[i].key != d.key {
        var j := UnsortedPosition(front, i);
        assert front[j] == ds[j];
      }
      hide Placed;
      PlacedDistinct(Sorted(front), d);
    }
  }

  lemma DistinctIsOptimal(ds: seq<Dep>, r: real, max: nat)
    requires r <= 1.0 && DistinctKeys(ds)
    ensures Optimal(ds, r, OneOrMore(max), KeySet(RefreshPlan(ds, max)))
  {
    SortedDistinct(ds);
    SortedSize(ds);
    hide Sorted, RefreshPlan, Optimal;
    DistinctPlanIsOptimal(ds, r, max, if OneOrMore(max) < |ds| then OneOrMore(max) else |ds|);
  }

  lemma ThreeSorted(c: Dep, a: Dep, p: Dep)
    requires a.freshness < p.freshness < c.freshness
    ensures Sorted([c, a, p]) == [a, p, c]
  {
    assert [c, a, p][..2] == [c, a] && [c, a][..1] == [c] && [c][..0] == [];
    assert Sorted([c]) == Placed([], c) == [c];
    assert Sorted([c, a]) == Placed([c], a) == Placed([], a) + [c] == [a, c];
    assert [a, c][..1] == [a];
    assert Sorted([c, a, p]) == Placed([a, c], p) == Placed([a], p) + [c] == [a, p, c];
  }

  /** An alias, an answer, and the proof of that answer, which lives at the same key: the plan for two keys
      names the shared key twice and misses the alias, whose freshness stays the bound. Refreshing both
      keys would lift it to 1. */
  lemma SharedKeyIsMissed(c: Dep, a: Dep, p: Dep)
    requires a.freshness < p.freshness < c.freshness < 1.0 && a.key == p.key != c.key
    ensures var ds := [c, a, p];
            && RefreshPlan(ds, 2) == [a.key, a.key]
            && BoundAt(ds, 1.0, {a.key}) == c.freshness && BoundAt(ds, 1.0, {a.key, c.key}) == 1.0
            && KeySet(RefreshPlan(ds, 2)) == {a.key} && !Optimal(ds, 1.0, 2, {a.key})
  {
    var ds, both := [c, a, p], {a.key, c.key};
    ThreePlanned(c, a, p);
    BoundAtIs(ds, 1.0, {a.key});
    BoundAtIs(ds, 1.0, both);
    hide Sorted, RefreshPlan, BoundAt, KeySet;
    assert ds[0] == c && ds[1] == a && ds[2] == p;
    assert |both| == 2;
    assert BoundAt(ds, 1.0, both) > BoundAt(ds, 1.0, {a.key});
  }

  lemma ThreePlanned(c: Dep, a: Dep, p: Dep)
    requires a.freshness < p.freshness < c.freshness && a.key == p.key
    ensures RefreshPlan([c, a, p], 2) == [a.key, a.key] && KeySet(RefreshPlan([c, a, p], 2)) == {a.key}
  {
    ThreeSorted(c, a, p);
    hide Sorted;
    PlanKeys([c, a, p], 2, 2);
    var plan := RefreshPlan([c, a, p], 2);
    assert plan == [a.key, a.key];
    assert plan[0] == a.key;
  }
}
