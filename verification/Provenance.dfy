/** The capped dependency set of a final answer: it must agree with the uncapped minimum
    (src/provenance.rs). Freshness values are reals in [0, 1]. */
module Provenance {
  import opened Octets
  import opened Risk
  import opened Sets

  datatype Role = Answer | Cname | Dname | Delegation | NsAddress | DnssecProof

  function RoleRank(r: Role): nat {
    match r
    case Answer => 0
    case Cname => 1
    case Dname => 2
    case Delegation => 3
    case NsAddress => 4
    case DnssecProof => 5
  }

  function RoleConsequence(r: Role): Consequence {
    match r
    case Answer => Low
    case Cname => Medium
    case Dname => Medium
    case Delegation => Critical
    case NsAddress => Critical
    case DnssecProof => Absolute
  }

  type Freshness = x: real | 0.0 <= x <= 1.0 witness 0.0

  /** A dependency; its key is the rank of the cache key in key order. */
  datatype Dep = Dep(role: Role, key: nat, freshness: Freshness)

  function OneOrMore(n: nat): nat { if n < 1 then 1 else n }

  predicate IsProof(d: Dep) { d.role == DnssecProof }

  // ---------------------------------------------------------------------------------------------
  // Summaries of a list

  function ProofPart(d: Dep): multiset<Freshness> {
    if IsProof(d) then multiset{d.freshness} else multiset{}
  }

  function OtherPart(d: Dep): multiset<Freshness> {
    if IsProof(d) then multiset{} else multiset{d.freshness}
  }

  function Sum(part: Dep -> multiset<Freshness>, ds: seq<Dep>): multiset<Freshness> {
    if ds == [] then multiset{} else Sum(part, ds[..|ds| - 1]) + part(ds[|ds| - 1])
  }

  /** The freshness values of the proofs, and of everything else. */
  function Proofs(ds: seq<Dep>): multiset<Freshness> {
    Sum(ProofPart, ds)
  }

  function Others(ds: seq<Dep>): multiset<Freshness> {
    Sum(OtherPart, ds)
  }

  function FreshnessOf(ds: seq<Dep>): multiset<Freshness> {
    Proofs(ds) + Others(ds)
  }

  lemma Snoc(ds: seq<Dep>, d: Dep)
    ensures Proofs(ds + [d]) == Proofs(ds) + ProofPart(d) && Others(ds + [d]) == Others(ds) + OtherPart(d)
  {
    assert (ds + [d])[..|ds|] == ds;
  }

  lemma {:induction false} Sizes(ds: seq<Dep>)
    ensures |Proofs(ds)| + |Others(ds)| == |ds|
  {
    if ds != [] {
      Sizes(ds[..|ds| - 1]);
    }
  }

  lemma {:induction false} Members(ds: seq<Dep>, i: nat)
    requires i < |ds|
    ensures ds[i].freshness in FreshnessOf(ds)
    ensures !IsProof(ds[i]) ==> ds[i].freshness in Others(ds)
    ensures IsProof(ds[i]) ==> ds[i].freshness in Proofs(ds)
  {
    if i < |ds| - 1 {
      Members(ds[..|ds| - 1], i);
    }
  }

  lemma {:induction false} FromMember(ds: seq<Dep>, x: Freshness) returns (i: nat)
    requires x in Others(ds)
    ensures i < |ds| && !IsProof(ds[i]) && ds[i].freshness == x
  {
    var last := ds[|ds| - 1];
    if !IsProof(last) && last.freshness == x {
      i := |ds| - 1;
    } else {
      i := FromMember(ds[..|ds| - 1], x);
    }
  }

  lemma {:induction false} FromProof(ds: seq<Dep>, x: Freshness) returns (i: nat)
    requires x in Proofs(ds)
    ensures i < |ds| && IsProof(ds[i]) && ds[i].freshness == x
  {
    var last := ds[|ds| - 1];
    if IsProof(last) && last.freshness == x {
      i := |ds| - 1;
    } else {
      i := FromProof(ds[..|ds| - 1], x);
    }
  }

  // ---------------------------------------------------------------------------------------------
  // What a capped set must keep

  /** `r` is the smaller of one and the least member of `m`. */
  ghost predicate IsFloor(r: real, m: multiset<Freshness>) {
    && r <= 1.0 && (forall x :: x in m ==> r <= x) && (r == 1.0 || exists x :: x in m && x == r)
  }

  /** `kept` are the `n` weakest of `all`. */
  ghost predicate Weakest(kept: multiset<Freshness>, all: multiset<Freshness>, n: nat) {
    && kept <= all && |kept| == n
    && forall x, y :: x in kept && y in all - kept ==> x <= y
  }

  /** How many non-proofs a set over `all` may keep. */
  function Room(all: seq<Dep>, cap: nat): nat {
    var left := if |Proofs(all)| >= cap then 0 else cap - |Proofs(all)|;
    if |Others(all)| < left then |Others(all)| else left
  }

  /** `kept` and `residual` summarise `all`: every proof, the weakest others, the floor of the rest. */
  ghost predicate Summarises(kept: seq<Dep>, residual: real, all: seq<Dep>, cap: nat) {
    && Proofs(kept) == Proofs(all)
    && Weakest(Others(kept), Others(all), Room(all, cap))
    && IsFloor(residual, Others(all) - Others(kept))
  }

  /** A value that one selection has more of is at most, and at least, any that the other has more of. */
  lemma HasMore(a: multiset<Freshness>, b: multiset<Freshness>, all: multiset<Freshness>, n: nat,
                x: Freshness)
    requires Weakest(a, all, n) && Weakest(b, all, n) && a[x] > b[x]
    ensures b <= a
  {
    forall y: Freshness ensures b[y] <= a[y] {
      assert b[y] > a[y] ==> y in b && y in all - a && x in a && x in all - b;
    }
  }

  lemma SameCardinality<T>(a: multiset<T>, b: multiset<T>)
    requires a <= b && |a| == |b|
    ensures a == b
  {
    assert b == a + (b - a);
  }

  lemma WeakestIsUnique(a: multiset<Freshness>, b: multiset<Freshness>, all: multiset<Freshness>, n: nat)
    requires Weakest(a, all, n) && Weakest(b, all, n)
    ensures a == b
  {
    if x :| x in a && a[x] > b[x] {
      HasMore(a, b, all, n, x);
      SameCardinality(b, a);
    } else {
      SameCardinality(a, b);
    }
  }

  lemma FloorIsUnique(r: real, s: real, m: multiset<Freshness>)
    requires IsFloor(r, m) && IsFloor(s, m)
    ensures r == s
  {
  }

  /** Two summaries of the same dependencies keep the same freshness values and the same residual. */
  lemma SummaryIsUnique(a: seq<Dep>, r: real, b: seq<Dep>, s: real, all: seq<Dep>, cap: nat)
    requires Summarises(a, r, all, cap) && Summarises(b, s, all, cap)
    ensures FreshnessOf(a) == FreshnessOf(b) && r == s
  {
    WeakestIsUnique(Others(a), Others(b), Others(all), Room(all, cap));
    FloorIsUnique(r, s, Others(all) - Others(a));
  }

  // ---------------------------------------------------------------------------------------------
  // Adding one dependency at a time

  /** The last of the strongest non-proofs among the first `n`. */
  function Strongest(ds: seq<Dep>, n: nat): Option<nat>
    requires n <= |ds|
  {
    if n == 0 then None
    else
      var r := Strongest(ds, n - 1);
      if IsProof(ds[n - 1]) then r
      else if r.None? || (r.value < n - 1 && ds[r.value].freshness <= ds[n - 1].freshness) then Some(n - 1)
      else r
  }

  lemma {:induction false} StrongestIs(ds: seq<Dep>, n: nat)
    requires n <= |ds|
    ensures var r := Strongest(ds, n);
            && (r.Some? ==> r.value < n && !IsProof(ds[r.value])
                            && forall i :: 0 <= i < n && !IsProof(ds[i]) ==> ds[i].freshness <= ds[r.value].freshness)
            && (r.None? ==> forall i :: 0 <= i < n ==> IsProof(ds[i]))
  {
    if n > 0 {
      StrongestIs(ds, n - 1);
    }
  }

  function Without(ds: seq<Dep>, k: nat): seq<Dep>
    requires k < |ds|
  {
    ds[..k] + ds[k + 1..]
  }

  /** A dependency set: what is retained and the floor of what was discarded. */
  datatype Set = Set(deps: seq<Dep>, residual: real)

  /** `push`. */
  function Pushed(s: Set, d: Dep, cap: nat): Set {
    var deps := s.deps + [d];
    if |deps| <= OneOrMore(cap) then Set(deps, s.residual)
    else
      StrongestIs(deps, |deps|);
      match Strongest(deps, |deps|)
      case None => Set(deps, s.residual)
      case Some(k) => Set(Without(deps, k), Min(s.residual, deps[k].freshness))
  }

  function PushAll(ds: seq<Dep>, cap: nat): Set {
    if ds == [] then Set([], 1.0) else Pushed(PushAll(ds[..|ds| - 1], cap), ds[|ds| - 1], cap)
  }

  lemma SumIsAssociative<T>(a: multiset<T>, b: multiset<T>, c: multiset<T>)
    ensures a + (b + c) == (a + b) + c
  {
  }

  lemma {:induction false} Joined(part: Dep -> multiset<Freshness>, a: seq<Dep>, b: seq<Dep>)
    ensures Sum(part, a + b) == Sum(part, a) + Sum(part, b)
  {
    if b == [] {
      assert a + b == a;
    } else {
      var b', d := b[..|b| - 1], b[|b| - 1];
      Joined(part, a, b');
      assert (a + b)[..|a + b| - 1] == a + b';
      SumIsAssociative(Sum(part, a), Sum(part, b'), part(d));
    }
  }

  lemma {:induction false} Split(part: Dep -> multiset<Freshness>, ds: seq<Dep>, k: nat)
    requires k < |ds|
    ensures Sum(part, ds) == Sum(part, Without(ds, k)) + part(ds[k])
  {
    var a, d, b := ds[..k], ds[k], ds[k + 1..];
    assert ds == a + [d] + b && (a + [d])[..k] == a;
    Joined(part, a + [d], b);
    Joined(part, a, b);
    assert Sum(part, a + [d]) == Sum(part, a) + part(d);
  }

  lemma WithoutOther(ds: seq<Dep>, k: nat)
    requires k < |ds| && !IsProof(ds[k])
    ensures Proofs(Without(ds, k)) == Proofs(ds)
    ensures ds[k].freshness in Others(ds) && Others(Without(ds, k)) == Others(ds) - multiset{ds[k].freshness}
  {
    Split(ProofPart, ds, k);
    Split(OtherPart, ds, k);
  }

  /** Moving the strongest kept value over to the discarded ones. */
  lemma Drop(kept: multiset<Freshness>, all: multiset<Freshness>, r: real, m: Freshness)
    requires kept <= all && m in kept && IsFloor(r, all - kept)
    requires forall x :: x in kept ==> x <= m
    requires forall x, y :: x in kept - multiset{m} && y in all - kept ==> x <= y
    ensures Weakest(kept - multiset{m}, all, |kept| - 1)
    ensures IsFloor(Min(r, m), all - (kept - multiset{m}))
  {
    var gone, gone' := all - kept, all - (kept - multiset{m});
    assert gone' == gone + multiset{m};
    assert m in gone';
    if Min(r, m) == r && r != 1.0 {
      var x :| x in gone && x == r;
      assert x in gone';
    }
  }

  lemma NothingDiscarded(kept: multiset<Freshness>, all: multiset<Freshness>, r: real)
    requires kept <= all && |kept| == |all| && IsFloor(r, all - kept)
    ensures kept == all && r == 1.0
  {
    SameCardinality(kept, all);
    assert all - kept == multiset{};
  }

  lemma StrongestValue(ds: seq<Dep>, k: nat)
    requires Strongest(ds, |ds|) == Some(k)
    ensures k < |ds| && !IsProof(ds[k]) && forall x :: x in Others(ds) ==> x <= ds[k].freshness
  {
    StrongestIs(ds, |ds|);
    forall x | x in Others(ds) ensures x <= ds[k].freshness {
      var i := FromMember(ds, x);
    }
  }

  lemma NoStrongest(ds: seq<Dep>)
    ensures Strongest(ds, |ds|).None? <==> |Others(ds)| == 0
  {
    StrongestIs(ds, |ds|);
    if Strongest(ds, |ds|).Some? {
      Members(ds, Strongest(ds, |ds|).value);
    } else if |Others(ds)| > 0 {
      var x :| x in Others(ds);
      var i := FromMember(ds, x);
    }
  }

  /** Discarding the strongest of one dependency too many leaves a summary. */
  lemma DropSummarises(deps: seq<Dep>, k: nat, all: seq<Dep>, r: real, cap: nat)
    requires Proofs(deps) == Proofs(all) && Others(deps) <= Others(all) && IsFloor(r, Others(all) - Others(deps))
    requires Strongest(deps, |deps|) == Some(k) && k < |deps| && |Others(deps)| == Room(all, cap) + 1
    requires forall x, y ::
               x in Others(deps) - multiset{deps[k].freshness} && y in Others(all) - Others(deps) ==> x <= y
    ensures Summarises(Without(deps, k), Min(r, deps[k].freshness), all, cap)
  {
    hide Sum, Room, Strongest;
    StrongestValue(deps, k);
    WithoutOther(deps, k);
    Drop(Others(deps), Others(all), r, deps[k].freshness);
  }

  /** A proof takes a place; if that exceeds the cap, the strongest other gives up its own. */
  lemma PushProof(s: Set, d: Dep, all: seq<Dep>, cap: nat)
    requires Summarises(s.deps, s.residual, all, OneOrMore(cap)) && IsProof(d)
    ensures var t := Pushed(s, d, cap); Summarises(t.deps, t.residual, all + [d], OneOrMore(cap))
  {
    var deps, c := s.deps + [d], OneOrMore(cap);
    Snoc(s.deps, d);
    Snoc(all, d);
    Sizes(deps);
    assert Others(deps) == Others(s.deps) && Others(all + [d]) == Others(all);
    hide Sum, Strongest, Without, IsFloor;
    if |deps| > c {
      NoStrongest(deps);
      StrongestIs(deps, |deps|);
      if Strongest(deps, |deps|).Some? {
        DropSummarises(deps, Strongest(deps, |deps|).value, all + [d], s.residual, c);
      }
    }
  }

  lemma StrongestGoes(kept: multiset<Freshness>, all: multiset<Freshness>, x: Freshness, m: Freshness)
    requires kept <= all && (forall u, v :: u in kept && v in all - kept ==> u <= v)
    requires m in kept + multiset{x} && forall u :: u in kept + multiset{x} ==> u <= m
    ensures (all + multiset{x}) - (kept + multiset{x}) == all - kept
    ensures forall u, v :: u in (kept + multiset{x}) - multiset{m} && v in all - kept ==> u <= v
  {
    forall u, v | u in (kept + multiset{x}) - multiset{m} && v in all - kept ensures u <= v {
      if m in kept {
        assert m <= v;
      } else {
        assert m == x && u in kept;
      }
    }
  }

  lemma PushOther(s: Set, d: Dep, all: seq<Dep>, cap: nat)
    requires Summarises(s.deps, s.residual, all, OneOrMore(cap)) && !IsProof(d)
    ensures var t := Pushed(s, d, cap); Summarises(t.deps, t.residual, all + [d], OneOrMore(cap))
  {
    var deps, c, x := s.deps + [d], OneOrMore(cap), d.freshness;
    Snoc(s.deps, d);
    Snoc(all, d);
    Sizes(deps);
    assert Others(deps) == Others(s.deps) + multiset{x} && Others(all + [d]) == Others(all) + multiset{x};
    hide Sum, Strongest, Without, IsFloor, Proofs, Others;
    if |deps| <= c {
      PushWithRoom(s, d, all, c);
    } else {
      NoStrongest(deps);
      var k := Strongest(deps, |deps|).value;
      StrongestValue(deps, k);
      InOthers(deps, k);
      StrongestGoes(Others(s.deps), Others(all), x, deps[k].freshness);
      DropSummarises(deps, k, all + [d], s.residual, c);
    }
  }

  lemma PushWithRoom(s: Set, d: Dep, all: seq<Dep>, c: nat)
    requires Summarises(s.deps, s.residual, all, c) && !IsProof(d) && |s.deps| < c
    ensures Summarises(s.deps + [d], s.residual, all + [d], c)
  {
    Snoc(s.deps, d);
    Snoc(all, d);
    Sizes(s.deps);
    hide Sum, IsFloor, Proofs, Others;
    NothingDiscarded(Others(s.deps), Others(all), s.residual);
    NothingYet(s.deps + [d], all + [d], c);
  }

  lemma InOthers(ds: seq<Dep>, k: nat)
    requires k < |ds| && !IsProof(ds[k])
    ensures ds[k].freshness in Others(ds)
  {
    Members(ds, k);
  }

  lemma NothingYet(deps: seq<Dep>, all: seq<Dep>, cap: nat)
    requires Proofs(deps) == Proofs(all) && Others(deps) == Others(all) && |deps| <= cap
    ensures Summarises(deps, 1.0, all, cap)
  {
    Sizes(deps);
  }

  lemma PushAllNext(ds: seq<Dep>, cap: nat)
    ensures ds == [] ==> PushAll(ds, cap) == Set([], 1.0)
    ensures ds != [] ==> PushAll(ds, cap) == Pushed(PushAll(ds[..|ds| - 1], cap), ds[|ds| - 1], cap)
  {
  }

  /** Adding dependencies one by one keeps, at every step, a summary of all that were ever added. */
  lemma {:induction false} PushAllSummarises(ds: seq<Dep>, cap: nat)
    ensures Summarises(PushAll(ds, cap).deps, PushAll(ds, cap).residual, ds, OneOrMore(cap))
  {
    hide *;
    PushAllNext(ds, cap);
    if ds == [] {
      NothingPushed(cap);
    } else {
      var front, d := ds[..|ds| - 1], ds[|ds| - 1];
      PushAllSummarises(front, cap);
      assert ds == front + [d];
      if IsProof(d) {
        PushProof(PushAll(front, cap), d, front, cap);
      } else {
        PushOther(PushAll(front, cap), d, front, cap);
      }
    }
  }

  lemma NothingPushed(cap: nat)
    ensures Summarises([], 1.0, [], OneOrMore(cap))
  {
    NothingYet([], [], OneOrMore(cap));
  }

  // ---------------------------------------------------------------------------------------------
  // Building at once

  /** The sorting order: freshness, then role, then key. */
  predicate Before(a: Dep, b: Dep) {
    a.freshness < b.freshness
    || (a.freshness == b.freshness
        && (RoleRank(a.role) < RoleRank(b.role) || (a.role == b.role && a.key <= b.key)))
  }

  /** Puts `d` behind everything that comes before it. */
  function Placed(s: seq<Dep>, d: Dep): seq<Dep> {
    if s == [] || Before(s[|s| - 1], d) then s + [d] else Placed(s[..|s| - 1], d) + [s[|s| - 1]]
  }

  /** The stable sort of `from_dependencies` and `refresh_plan`. */
  function Sorted(ds: seq<Dep>): seq<Dep> {
    if ds == [] then [] else Placed(Sorted(ds[..|ds| - 1]), ds[|ds| - 1])
  }

  predicate Ordered(s: seq<Dep>) {
    forall i, j :: 0 <= i < j < |s| ==> Before(s[i], s[j])
  }

  /** Every element of the new list is `d` or was there before. */
  lemma {:induction false} PlacedHas(s: seq<Dep>, d: Dep, i: nat)
    requires i < |Placed(s, d)|
    ensures Placed(s, d)[i] == d || exists j :: 0 <= j < |s| && s[j] == Placed(s, d)[i]
  {
    if s != [] && !Before(s[|s| - 1], d) && i < |Placed(s[..|s| - 1], d)| {
      PlacedHas(s[..|s| - 1], d, i);
    }
  }

  lemma {:induction false} PlacedOrdered(s: seq<Dep>, d: Dep)
    requires Ordered(s)
    ensures Ordered(Placed(s, d))
  {
    if s != [] && !Before(s[|s| - 1], d) {
      var front, last := s[..|s| - 1], s[|s| - 1];
      PlacedOrdered(front, d);
      forall i | 0 <= i < |Placed(front, d)| ensures Before(Placed(front, d)[i], last) {
        PlacedHas(front, d, i);
      }
    }
  }

  lemma MultisetSnoc<T>(s: seq<T>, x: T)
    ensures multiset(s + [x]) == multiset(s) + multiset{x}
  {
  }

  lemma {:induction false} PlacedPermutes(s: seq<Dep>, d: Dep)
    ensures multiset(Placed(s, d)) == multiset(s) + multiset{d}
  {
    if s == [] || Before(s[|s| - 1], d) {
      MultisetSnoc(s, d);
    } else {
      var front, last := s[..|s| - 1], s[|s| - 1];
      PlacedPermutes(front, d);
      assert s == front + [last];
      hide Placed;
      MultisetSnoc(front, last);
      MultisetSnoc(Placed(front, d), last);
    }
  }

  lemma {:induction false} PlacedSum(part: Dep -> multiset<Freshness>, s: seq<Dep>, d: Dep)
    ensures Sum(part, Placed(s, d)) == Sum(part, s) + part(d)
  {
    if s != [] && !Before(s[|s| - 1], d) {
      var front, last := s[..|s| - 1], s[|s| - 1];
      PlacedSum(part, front, d);
      assert (Placed(front, d) + [last])[..|Placed(front, d)|] == Placed(front, d);
    } else {
      assert (s + [d])[..|s|] == s;
    }
  }

  lemma {:induction false} SortedIs(ds: seq<Dep>)
    ensures Ordered(Sorted(ds)) && multiset(Sorted(ds)) == multiset(ds)
  {
    if ds != [] {
      var front, d := ds[..|ds| - 1], ds[|ds| - 1];
      SortedIs(front);
      PlacedOrdered(Sorted(front), d);
      PlacedPermutes(Sorted(front), d);
      assert ds == front + [d];
      hide Placed, Ordered;
      MultisetSnoc(front, d);
    }
  }

  lemma {:induction false} SortedSum(part: Dep -> multiset<Freshness>, ds: seq<Dep>)
    ensures Sum(part, Sorted(ds)) == Sum(part, ds)
  {
    if ds != [] {
      SortedSum(part, ds[..|ds| - 1]);
      PlacedSum(part, Sorted(ds[..|ds| - 1]), ds[|ds| - 1]);
    }
  }

  /** The draining loop over the first `n` sorted dependencies: what is kept, the floor of the rest. */
  function Sifted(s: seq<Dep>, room: nat, n: nat): (Set, nat)
    requires n <= |s|
  {
    if n == 0 then (Set([], 1.0), 0)
    else
      var (t, others) := Sifted(s, room, n - 1);
      var d := s[n - 1];
      if IsProof(d) then (Set(t.deps + [d], t.residual), others)
      else if others < room then (Set(t.deps + [d], t.residual), others + 1)
      else (Set(t.deps, Min(t.residual, d.freshness)), others)
  }

  /** Room left for non-proofs once the proofs are in. */
  function RoomLeft(ds: seq<Dep>, cap: nat): nat {
    if |Proofs(ds)| >= cap then 0 else cap - |Proofs(ds)|
  }

  /** `from_dependencies`. */
  function FromDependencies(ds: seq<Dep>, cap: nat): Set {
    if |ds| <= OneOrMore(cap) then Set(ds, 1.0)
    else Sifted(Sorted(ds), RoomLeft(ds, OneOrMore(cap)), |Sorted(ds)|).0
  }

  ghost predicate SiftedWell(s: seq<Dep>, room: nat, t: Set, others: nat) {
    && Proofs(t.deps) == Proofs(s) && |Others(t.deps)| == others
    && Weakest(Others(t.deps), Others(s), if |Others(s)| < room then |Others(s)| else room)
    && IsFloor(t.residual, Others(s) - Others(t.deps))
  }

  lemma KeepsOne(kept: multiset<Freshness>, all: multiset<Freshness>, x: Freshness)
    ensures (all + multiset{x}) - (kept + multiset{x}) == all - kept
  {
  }

  lemma DropsOne(kept: multiset<Freshness>, all: multiset<Freshness>, x: Freshness, r: real)
    requires kept <= all && IsFloor(r, all - kept)
    requires (forall u, v :: u in kept && v in all - kept ==> u <= v) && forall u :: u in all ==> u <= x
    ensures kept <= all + multiset{x} && IsFloor(Min(r, x), (all + multiset{x}) - kept)
    ensures forall u, v :: u in kept && v in (all + multiset{x}) - kept ==> u <= v
  {
    var gone, gone' := all - kept, (all + multiset{x}) - kept;
    assert gone' == gone + multiset{x};
    assert x in gone';
    if Min(r, x) == r && r != 1.0 {
      var y :| y in gone && y == r;
      assert y in gone';
    }
  }

  lemma SiftProof(s: seq<Dep>, d: Dep, room: nat, t: Set, others: nat)
    requires SiftedWell(s, room, t, others) && IsProof(d)
    ensures SiftedWell(s + [d], room, Set(t.deps + [d], t.residual), others)
  {
    Snoc(s, d);
    Snoc(t.deps, d);
    assert Others(s + [d]) == Others(s) && Others(t.deps + [d]) == Others(t.deps);
    hide Sum, IsFloor;
  }

  lemma SiftKept(s: seq<Dep>, d: Dep, room: nat, t: Set, others: nat)
    requires SiftedWell(s, room, t, others) && !IsProof(d) && others < room
    ensures SiftedWell(s + [d], room, Set(t.deps + [d], t.residual), others + 1)
  {
    Snoc(s, d);
    Snoc(t.deps, d);
    var kept, all, x := Others(t.deps), Others(s), d.freshness;
    SameCardinality(kept, all);
    assert Others(s + [d]) == all + multiset{x} && Others(t.deps + [d]) == kept + multiset{x};
    KeepsOne(kept, all, x);
    hide Sum, IsFloor;
  }

  lemma SiftDropped(s: seq<Dep>, d: Dep, room: nat, t: Set, others: nat)
    requires SiftedWell(s, room, t, others) && !IsProof(d) && others >= room
    requires forall x :: x in Others(s) ==> x <= d.freshness
    ensures SiftedWell(s + [d], room, Set(t.deps, Min(t.residual, d.freshness)), others)
  {
    Snoc(s, d);
    assert Others(s + [d]) == Others(s) + multiset{d.freshness};
    hide Sum, IsFloor;
    DropsOne(Others(t.deps), Others(s), d.freshness, t.residual);
  }

  lemma LaterIsStronger(s: seq<Dep>, n: nat, front: seq<Dep>)
    requires n < |s| && Ordered(s) && front == s[..n]
    ensures forall x :: x in Others(front) ==> x <= s[n].freshness
  {
    forall x | x in Others(front) ensures x <= s[n].freshness {
      var i := FromMember(front, x);
      assert Before(s[i], s[n]);
    }
  }

  lemma SiftNothing(room: nat)
    ensures SiftedWell([], room, Set([], 1.0), 0)
  {
  }

  lemma SiftStep(s: seq<Dep>, d: Dep, room: nat, t: Set, others: nat)
    requires SiftedWell(s, room, t, others) && forall x :: x in Others(s) ==> x <= d.freshness
    ensures IsProof(d) ==> SiftedWell(s + [d], room, Set(t.deps + [d], t.residual), others)
    ensures !IsProof(d) && others < room ==> SiftedWell(s + [d], room, Set(t.deps + [d], t.residual), others + 1)
    ensures !IsProof(d) && others >= room ==>
              SiftedWell(s + [d], room, Set(t.deps, Min(t.residual, d.freshness)), others)
  {
    hide SiftedWell, Others;
    if IsProof(d) {
      SiftProof(s, d, room, t, others);
    } else if others < room {
      SiftKept(s, d, room, t, others);
    } else {
      SiftDropped(s, d, room, t, others);
    }
  }

  lemma {:induction false} SiftedSummarises(s: seq<Dep>, room: nat, n: nat)
    requires n <= |s| && Ordered(s)
    ensures SiftedWell(s[..n], room, Sifted(s, room, n).0, Sifted(s, room, n).1)
  {
    SiftNothing(room);
    assert s[..0] == [];
    hide SiftedWell, Others;
    if n > 0 {
      SiftedSummarises(s, room, n - 1);
      TakeSnoc(s, n - 1);
      LaterIsStronger(s, n - 1, s[..n - 1]);
      SiftStep(s[..n - 1], s[n - 1], room, Sifted(s, room, n - 1).0, Sifted(s, room, n - 1).1);
    }
  }

  lemma FromDependenciesSummarises(ds: seq<Dep>, cap: nat)
    ensures Summarises(FromDependencies(ds, cap).deps, FromDependencies(ds, cap).residual, ds, OneOrMore(cap))
  {
    var c, s := OneOrMore(cap), Sorted(ds);
    if |ds| <= c {
      NothingYet(ds, ds, c);
    } else {
      SortedIs(ds);
      SortedSum(ProofPart, ds);
      SortedSum(OtherPart, ds);
      SiftedSummarises(s, RoomLeft(ds, c), |s|);
      TakeAll(s);
    }
  }

  /** Adding the dependencies one by one and building from the whole list keep the same freshness values
      and the same residual floor. */
  lemma PushRefinesBuild(ds: seq<Dep>, cap: nat)
    ensures FreshnessOf(PushAll(ds, cap).deps) == FreshnessOf(FromDependencies(ds, cap).deps)
    ensures PushAll(ds, cap).residual == FromDependencies(ds, cap).residual
  {
    PushAllSummarises(ds, cap);
    FromDependenciesSummarises(ds, cap);
    var a, b := PushAll(ds, cap), FromDependencies(ds, cap);
    hide Summarises, PushAll, FromDependencies, FreshnessOf;
    SummaryIsUnique(a.deps, a.residual, b.deps, b.residual, ds, OneOrMore(cap));
  }

  // ---------------------------------------------------------------------------------------------
  // What trimming preserves

  /** `bound`: the weakest link among the first `n`, and the residual floor. */
  function Bound(ds: seq<Dep>, residual: real, n: nat): real
    requires n <= |ds|
  {
    if n == 0 then residual else Min(Bound(ds, residual, n - 1), ds[n - 1].freshness)
  }

  /** A greatest lower bound, and one of the values or the cap of one. */
  ghost predicate IsWeakestLink(b: real, ds: seq<Dep>) {
    && b <= 1.0 && (forall i :: 0 <= i < |ds| ==> b <= ds[i].freshness)
    && (b == 1.0 || exists i :: 0 <= i < |ds| && ds[i].freshness == b)
  }

  lemma {:induction false} BoundIs(ds: seq<Dep>, r: real, n: nat)
    requires n <= |ds|
    ensures var b := Bound(ds, r, n);
            && b <= r && (forall i :: 0 <= i < n ==> b <= ds[i].freshness)
            && (b == r || exists i :: 0 <= i < n && ds[i].freshness == b)
  {
    if n > 0 {
      BoundIs(ds, r, n - 1);
    }
  }

  lemma Everywhere(kept: seq<Dep>, r: real, all: seq<Dep>, cap: nat, i: nat)
    requires Summarises(kept, r, all, cap) && i < |all|
    ensures Bound(kept, r, |kept|) <= all[i].freshness
  {
    BoundIs(kept, r, |kept|);
    Members(all, i);
    var x := all[i].freshness;
    if IsProof(all[i]) {
      var j := FromProof(kept, x);
    } else if x in Others(kept) {
      var j := FromMember(kept, x);
    } else {
      assert x in Others(all) - Others(kept);
    }
  }

  lemma Somewhere(kept: seq<Dep>, r: real, all: seq<Dep>, cap: nat)
    requires Summarises(kept, r, all, cap)
    ensures var b := Bound(kept, r, |kept|); b == 1.0 || exists i :: 0 <= i < |all| && all[i].freshness == b
  {
    var b := Bound(kept, r, |kept|);
    BoundIs(kept, r, |kept|);
    if b == r {
      if r != 1.0 {
        var x :| x in Others(all) - Others(kept) && x == r;
        var j := FromMember(all, x);
      }
    } else {
      var i :| 0 <= i < |kept| && kept[i].freshness == b;
      Members(kept, i);
      if IsProof(kept[i]) {
        var j := FromProof(all, kept[i].freshness);
      } else {
        var j := FromMember(all, kept[i].freshness);
      }
    }
  }

  /** However a set was trimmed, its bound is the weakest link of everything ever added, and stale service
      is permitted exactly when nothing ever added was a proof. */
  lemma TrimmingIsSound(kept: seq<Dep>, r: real, all: seq<Dep>, cap: nat)
    requires Summarises(kept, r, all, cap)
    ensures IsWeakestLink(Bound(kept, r, |kept|), all)
    ensures PermitsStale(kept) <==> PermitsStale(all)
  {
    forall i | 0 <= i < |all| ensures Bound(kept, r, |kept|) <= all[i].freshness {
      Everywhere(kept, r, all, cap, i);
    }
    BoundIs(kept, r, |kept|);
    Somewhere(kept, r, all, cap);
    NoProofs(kept);
    NoProofs(all);
  }

  predicate PermitsStale(ds: seq<Dep>) {
    forall i :: 0 <= i < |ds| ==> !IsProof(ds[i])
  }

  lemma NoProofs(ds: seq<Dep>)
    ensures PermitsStale(ds) <==> Proofs(ds) == multiset{}
  {
    if PermitsStale(ds) {
      if |Proofs(ds)| > 0 {
        var x :| x in Proofs(ds);
        var i := FromProof(ds, x);
      }
    } else {
      var i :| 0 <= i < |ds| && IsProof(ds[i]);
      Members(ds, i);
    }
  }

  function WorstOf(ds: seq<Dep>): Option<Consequence> {
    if ds == [] then None
    else
      var c := RoleConsequence(ds[|ds| - 1].role);
      match WorstOf(ds[..|ds| - 1])
      case None => Some(c)
      case Some(w) => Some(Worse(w, c))
  }

  // ---------------------------------------------------------------------------------------------
  // Refreshing

  /** The dependencies after those at the positions `chosen` have been refreshed to certainty. */
  function Refreshed(ds: seq<Dep>, chosen: set<nat>): (r: seq<Dep>)
    ensures |r| == |ds|
    ensures forall i :: 0 <= i < |ds| ==> r[i] == if i in chosen then ds[i].(freshness := 1.0) else ds[i]
  {
    seq(|ds|, i requires 0 <= i < |ds| => if i in chosen then ds[i].(freshness := 1.0) else ds[i])
  }

  function BoundOf(ds: seq<Dep>, r: real): real {
    Bound(ds, r, |ds|)
  }

  /** The bound the others would give, among the first `n`. */
  function BoundWithout(ds: seq<Dep>, r: real, i: nat, n: nat): real
    requires n <= |ds|
  {
    if n == 0 then r
    else if n - 1 == i then BoundWithout(ds, r, i, n - 1)
    else Min(BoundWithout(ds, r, i, n - 1), ds[n - 1].freshness)
  }

  /** `risk_reduction_at`. */
  function RiskReduction(ds: seq<Dep>, r: real, i: nat): real {
    if i >= |ds| then 0.0 else Max(Min(BoundWithout(ds, r, i, |ds|), 1.0) - BoundOf(ds, r), 0.0)
  }

  lemma {:induction false} RefreshingOne(ds: seq<Dep>, r: real, i: nat, n: nat)
    requires i < |ds| && n <= |ds| && r <= 1.0
    ensures Bound(Refreshed(ds, {i}), r, n) == BoundWithout(ds, r, i, n) <= r
    ensures Bound(ds, r, n)
            == if i < n then Min(BoundWithout(ds, r, i, n), ds[i].freshness) else BoundWithout(ds, r, i, n)
    ensures forall j :: 0 <= j < n && j != i ==> BoundWithout(ds, r, i, n) <= ds[j].freshness
    ensures BoundWithout(ds, r, i, n) == r
            || exists j :: 0 <= j < n && j != i && ds[j].freshness == BoundWithout(ds, r, i, n)
  {
    hide Refreshed;
    if n > 0 {
      RefreshingOne(ds, r, i, n - 1);
    }
  }

  /** What `risk_reduction_at` reports is exactly what refreshing that dependency alone gains; it is
      positive exactly for the unique weakest one, and only below the residual. */
  lemma RiskReductionIsExact(ds: seq<Dep>, r: real, i: nat)
    requires i < |ds| && r <= 1.0
    ensures RiskReduction(ds, r, i) == BoundOf(Refreshed(ds, {i}), r) - BoundOf(ds, r)
    ensures RiskReduction(ds, r, i) > 0.0 <==>
            ds[i].freshness < r && forall j :: 0 <= j < |ds| && j != i ==> ds[i].freshness < ds[j].freshness
  {
    RefreshingOne(ds, r, i, |ds|);
  }

  /** `refresh_plan`: the keys of the weakest dependencies, at least one. */
  function RefreshPlan(ds: seq<Dep>, max: nat): seq<nat> {
    var n := if OneOrMore(max) < |Sorted(ds)| then OneOrMore(max) else |Sorted(ds)|;
    Map((d: Dep) => d.key, Sorted(ds)[..n])
  }

  function FirstOnes(k: nat): (s: set<nat>)
    ensures forall i: nat :: i in s <==> i < k
  {
    if k == 0 then {} else FirstOnes(k - 1) + {k - 1}
  }

  function LowPart(x: real): Dep -> multiset<Freshness> {
    (d: Dep) => if d.freshness <= x then multiset{d.freshness} else multiset{}
  }

  /** The positions of the values up to `x` among the first `n`. */
  function LowAt(ds: seq<Dep>, x: real, n: nat): set<nat>
    requires n <= |ds|
  {
    if n == 0 then {} else if ds[n - 1].freshness <= x then LowAt(ds, x, n - 1) + {n - 1} else LowAt(ds, x, n - 1)
  }

  lemma {:induction false} LowHas(ds: seq<Dep>, x: real, n: nat)
    requires n <= |ds|
    ensures forall i :: i in LowAt(ds, x, n) ==> i < n && ds[i].freshness <= x
  {
    if n > 0 {
      LowHas(ds, x, n - 1);
    }
  }

  lemma SumNext(part: Dep -> multiset<Freshness>, ds: seq<Dep>, n: nat)
    requires 0 < n <= |ds|
    ensures Sum(part, ds[..n]) == Sum(part, ds[..n - 1]) + part(ds[n - 1])
  {
    assert ds[..n][..n - 1] == ds[..n - 1];
  }

  lemma {:induction false} LowCounts(ds: seq<Dep>, x: real, n: nat)
    requires n <= |ds|
    ensures |LowAt(ds, x, n)| == |Sum(LowPart(x), ds[..n])|
  {
    if n > 0 {
      LowCounts(ds, x, n - 1);
      LowHas(ds, x, n - 1);
      SumNext(LowPart(x), ds, n);
      hide Sum;
      AddOne(LowAt(ds, x, n - 1), n - 1);
    }
  }

  lemma {:induction false} FirstAreLow(s: seq<Dep>, x: real, n: nat)
    requires n <= |s| && forall i :: 0 <= i < n ==> s[i].freshness <= x
    ensures |Sum(LowPart(x), s[..n])| == n
  {
    if n > 0 {
      FirstAreLow(s, x, n - 1);
      SumNext(LowPart(x), s, n);
      hide Sum;
    }
  }

  /** At least `k + 1` positions hold values up to the one at position `k` of the sorted list. */
  lemma ManyLow(ds: seq<Dep>, s: seq<Dep>, x: real, k: nat)
    requires s == Sorted(ds) && Ordered(s) && k < |s| && x == s[k].freshness
    ensures |LowAt(ds, x, |ds|)| >= k + 1
  {
    forall i | 0 <= i < k + 1 ensures s[i].freshness <= x {
      assert i < k ==> Before(s[i], s[k]);
    }
    FirstAreLow(s, x, k + 1);
    assert s[..k + 1] + s[k + 1..] == s;
    Joined(LowPart(x), s[..k + 1], s[k + 1..]);
    SortedSum(LowPart(x), ds);
    LowCounts(ds, x, |ds|);
    TakeAll(ds);
  }

  lemma Escapes<T>(low: set<T>, chosen: set<T>) returns (p: T)
    requires |low| > |chosen|
    ensures p in low && p !in chosen
  {
    if low <= chosen {
      Smaller(low, chosen);
    }
    p :| p in low && p !in chosen;
  }

  /** More positions are low than can have been chosen. */
  lemma UnchosenLow(ds: seq<Dep>, s: seq<Dep>, x: real, k: nat, chosen: set<nat>) returns (p: nat)
    requires s == Sorted(ds) && Ordered(s) && k < |s| && x == s[k].freshness && |chosen| <= k
    ensures p < |ds| && p !in chosen && ds[p].freshness <= x
  {
    ManyLow(ds, s, x, k);
    LowHas(ds, x, |ds|);
    p := Escapes(LowAt(ds, x, |ds|), chosen);
  }

  lemma SortedSize(ds: seq<Dep>)
    ensures |Sorted(ds)| == |ds|
  {
    SortedIs(ds);
    assert |multiset(Sorted(ds))| == |multiset(ds)|;
  }

  /** Bottleneck first is optimal: refreshing the first `k` of the plan gives a bound at least as high as
      refreshing any `k` dependencies, wherever they stand. */
  lemma PlanIsOptimal(ds: seq<Dep>, r: real, k: nat, chosen: set<nat>)
    requires r <= 1.0 && |chosen| <= k
    ensures BoundOf(Refreshed(ds, chosen), r) <= BoundOf(Refreshed(Sorted(ds), FirstOnes(k)), r)
  {
    var s, best, other := Sorted(ds), Refreshed(Sorted(ds), FirstOnes(k)), Refreshed(ds, chosen);
    hide Bound, Sorted, FirstOnes, Refreshed, Ordered;
    SortedSize(ds);
    SortedIs(ds);
    BoundIs(best, r, |best|);
    BoundIs(other, r, |other|);
    var b := BoundOf(best, r);
    if b != r {
      var j :| 0 <= j < |best| && best[j].freshness == b;
      if j >= k {
        assert best[j].freshness == s[j].freshness;
        AtLeastOneLow(ds, s, k, j, chosen, other);
      }
    }
  }

  lemma AtLeastOneLow(ds: seq<Dep>, s: seq<Dep>, k: nat, j: nat, chosen: set<nat>, other: seq<Dep>)
    requires s == Sorted(ds) && Ordered(s) && k <= j < |s| && |chosen| <= k && other == Refreshed(ds, chosen)
    ensures exists p :: 0 <= p < |other| && other[p].freshness <= s[j].freshness
  {
    var p := UnchosenLow(ds, s, s[k].freshness, k, chosen);
    assert other[p] == ds[p];
    assert k < j ==> Before(s[k], s[j]);
  }

  // ---------------------------------------------------------------------------------------------
  // The set as the program updates it

  class Dependencies {
    const maxDependencies: nat
    var deps: seq<Dep>
    var residual: real

    function Value(): Set
      reads this
    {
      Set(deps, residual)
    }

    constructor (maxDependencies: nat)
      ensures this.maxDependencies == maxDependencies && Value() == PushAll([], maxDependencies)
    {
      this.maxDependencies, deps, residual := maxDependencies, [], 1.0;
    }

    /** `from_dependencies`: drains the sorted list, keeping proofs and the weakest others. */
    constructor FromList(maxDependencies: nat, list: seq<Dep>)
      ensures this.maxDependencies == maxDependencies && Value() == FromDependencies(list, maxDependencies)
    {
      this.maxDependencies, residual, deps := maxDependencies, 1.0, list;
      new;
      var cap := OneOrMore(maxDependencies);
      if |list| > cap {
        var sorted, room := Sorted(list), RoomLeft(list, cap);
        var othersKept := 0;
        deps := [];
        for i := 0 to |sorted|
          invariant (Value(), othersKept) == Sifted(sorted, room, i)
        {
          var d := sorted[i];
          if IsProof(d) || othersKept < room {
            if !IsProof(d) {
              othersKept := othersKept + 1;
            }
            deps := deps + [d];
          } else {
            residual := Min(residual, d.freshness);
          }
        }
      }
    }

    /** `push`: over the cap, the strongest non-proof goes and lowers the floor. */
    method Push(dep: Dep)
      modifies this
      ensures Value() == Pushed(old(Value()), dep, maxDependencies)
    {
      deps := deps + [dep];
      if |deps| > OneOrMore(maxDependencies) {
        var best: Option<nat> := None;
        for i := 0 to |deps|
          invariant best == Strongest(deps, i) && (best.Some? ==> best.value < i)
        {
          if !IsProof(deps[i]) && (best.None? || deps[best.value].freshness <= deps[i].freshness) {
            best := Some(i);
          }
        }
        if best.Some? {
          residual := Min(residual, deps[best.value].freshness);
          deps := deps[..best.value] + deps[best.value + 1..];
        }
      }
    }

    method WeakestLink() returns (b: real)
      ensures b == BoundOf(deps, residual)
    {
      b := residual;
      for i := 0 to |deps|
        invariant b == Bound(deps, residual, i)
      {
        b := Min(b, deps[i].freshness);
      }
    }
  }
}
