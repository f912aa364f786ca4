/** What trimming does to the worst consequence class of a dependency set: it can be lost, and exactly when
    (src/provenance.rs). */
module Severity {
  import opened Octets
  import opened Risk
  import opened Provenance
  import opened Sets

  // ---------------------------------------------------------------------------------------------
  // The worst class

  function ClassOf(d: Dep): Consequence { RoleConsequence(d.role) }

  ghost predicate HasClass(ds: seq<Dep>, w: Consequence) {
    exists i :: 0 <= i < |ds| && ClassOf(ds[i]) == w
  }

  /** `w` occurs, and nothing worse. */
  ghost predicate IsWorst(ds: seq<Dep>, w: Consequence) {
    HasClass(ds, w) && forall i :: 0 <= i < |ds| ==> Rank(ClassOf(ds[i])) <= Rank(w)
  }

  lemma {:induction false} WorstIs(ds: seq<Dep>)
    ensures ds == [] <==> WorstOf(ds).None?
    ensures ds != [] ==> IsWorst(ds, WorstOf(ds).value)
  {
    if ds != [] {
      var front, last := ds[..|ds| - 1], ds[|ds| - 1];
      WorstIs(front);
      assert ClassOf(last) == RoleConsequence(last.role);
      if front != [] {
        var i :| 0 <= i < |front| && ClassOf(front[i]) == WorstOf(front).value;
        assert ds[i] == front[i];
        forall j | 0 <= j < |ds| ensures Rank(ClassOf(ds[j])) <= Rank(WorstOf(ds).value) {
          assert j < |front| ==> ds[j] == front[j];
        }
      }
    }
  }

  lemma SameRank(a: Consequence, b: Consequence)
    requires Rank(a) == Rank(b)
    ensures a == b
  {
  }

  /** A part of a set reports its worst class exactly if it has a dependency of that class, and never a
      worse one. */
  lemma PartSeverity(kept: seq<Dep>, all: seq<Dep>, w: Consequence)
    requires WorstOf(all) == Some(w) && forall d :: d in kept ==> d in all
    ensures WorstOf(kept) == Some(w) <==> HasClass(kept, w)
    ensures WorstOf(kept).Some? ==> Rank(WorstOf(kept).value) <= Rank(w)
  {
    WorstIs(all);
    WorstIs(kept);
    forall i | 0 <= i < |kept| ensures Rank(ClassOf(kept[i])) <= Rank(w) {
      assert kept[i] in all;
    }
    if kept != [] && HasClass(kept, w) {
      SameRank(WorstOf(kept).value, w);
    }
  }

  /** A set with a proof is of the absolute class. */
  lemma ProofIsWorst(ds: seq<Dep>)
    ensures WorstOf(ds) == Some(Absolute) <==> !PermitsStale(ds)
  {
    WorstIs(ds);
    if !PermitsStale(ds) {
      var i :| 0 <= i < |ds| && IsProof(ds[i]);
      assert ClassOf(ds[i]) == Absolute;
      SameRank(WorstOf(ds).value, Absolute);
    }
    if WorstOf(ds) == Some(Absolute) {
      var i :| 0 <= i < |ds| && ClassOf(ds[i]) == Absolute;
      assert IsProof(ds[i]);
    }
  }

  // ---------------------------------------------------------------------------------------------
  // Building from a list

  /** How many of the first `n` are no proofs. */
  function OthersBefore(ds: seq<Dep>, n: nat): nat
    requires n <= |ds|
  {
    if n == 0 then 0 else OthersBefore(ds, n - 1) + if IsProof(ds[n - 1]) then 0 else 1
  }

  /** Position `i` of the sorted list is kept: a proof, or one of the first `room` others. */
  predicate SurvivesSift(s: seq<Dep>, room: nat, i: nat)
    requires i < |s|
  {
    IsProof(s[i]) || OthersBefore(s, i) < room
  }

  function AtMost(k: nat, room: nat): nat { if k < room then k else room }

  /** After `n` sorted positions, `others` non-proofs are kept, and `kept` has exactly the survivors. */
  ghost predicate HasSurvivors(s: seq<Dep>, room: nat, n: nat, kept: seq<Dep>, others: nat)
    requires n <= |s|
  {
    && others == AtMost(OthersBefore(s, n), room)
    && (forall i :: 0 <= i < n && SurvivesSift(s, room, i) ==> s[i] in kept)
    && (forall d :: d in kept ==> exists i :: 0 <= i < n && SurvivesSift(s, room, i) && s[i] == d)
  }

  lemma CountNext(s: seq<Dep>, room: nat, n: nat)
    requires n < |s|
    ensures AtMost(OthersBefore(s, n + 1), room)
            == AtMost(OthersBefore(s, n), room) + if SurvivesSift(s, room, n) && !IsProof(s[n]) then 1 else 0
  {
  }

  lemma Survived(s: seq<Dep>, room: nat, n: nat, kept: seq<Dep>, others: nat, others': nat)
    requires n < |s| && HasSurvivors(s, room, n, kept, others) && SurvivesSift(s, room, n)
    requires others' == others + if IsProof(s[n]) then 0 else 1
    ensures HasSurvivors(s, room, n + 1, kept + [s[n]], others')
  {
    hide OthersBefore, SurvivesSift, IsProof, AtMost;
    CountNext(s, room, n);
    InFront(kept, s[n]);
  }

  lemma Discarded(s: seq<Dep>, room: nat, n: nat, kept: seq<Dep>, others: nat)
    requires n < |s| && HasSurvivors(s, room, n, kept, others) && !SurvivesSift(s, room, n)
    ensures HasSurvivors(s, room, n + 1, kept, others)
  {
    hide OthersBefore, SurvivesSift, IsProof, AtMost;
    CountNext(s, room, n);
  }

  lemma NoneSifted(s: seq<Dep>, room: nat)
    ensures HasSurvivors(s, room, 0, Sifted(s, room, 0).0.deps, Sifted(s, room, 0).1)
  {
  }

  /** One more sorted position is kept exactly if it survives. */
  lemma SiftedNext(s: seq<Dep>, room: nat, n: nat, t: Set, others: nat)
    requires n < |s| && Sifted(s, room, n) == (t, others) && others == AtMost(OthersBefore(s, n), room)
    ensures var (t', others') := Sifted(s, room, n + 1);
            if SurvivesSift(s, room, n) then
              t'.deps == t.deps + [s[n]] && others' == others + if IsProof(s[n]) then 0 else 1
            else t'.deps == t.deps && others' == others
  {
    hide OthersBefore;
  }

  lemma {:induction false} SiftedHas(s: seq<Dep>, room: nat, n: nat)
    requires n <= |s|
    ensures HasSurvivors(s, room, n, Sifted(s, room, n).0.deps, Sifted(s, room, n).1)
  {
    hide Sifted, OthersBefore, SurvivesSift, AtMost;
    if n == 0 {
      NoneSifted(s, room);
    } else {
      SiftedHas(s, room, n - 1);
      var t, others := Sifted(s, room, n - 1).0, Sifted(s, room, n - 1).1;
      SiftedNext(s, room, n - 1, t, others);
      hide HasSurvivors;
      if SurvivesSift(s, room, n - 1) {
        Survived(s, room, n - 1, t.deps, others, others + if IsProof(s[n - 1]) then 0 else 1);
      } else {
        Discarded(s, room, n - 1, t.deps, others);
      }
    }
  }

  lemma InFront(s: seq<Dep>, d: Dep)
    ensures forall x :: x in s + [d] <==> x in s || x == d
  {
  }

  ghost predicate ClassSurvivesSift(s: seq<Dep>, room: nat, w: Consequence) {
    exists i :: 0 <= i < |s| && ClassOf(s[i]) == w && SurvivesSift(s, room, i)
  }

  lemma SurvivorsClass(s: seq<Dep>, room: nat, kept: seq<Dep>, others: nat, w: Consequence)
    requires HasSurvivors(s, room, |s|, kept, others)
    ensures HasClass(kept, w) <==> ClassSurvivesSift(s, room, w)
  {
    hide SurvivesSift, ClassOf, OthersBefore, AtMost;
    if HasClass(kept, w) {
      var j :| 0 <= j < |kept| && ClassOf(kept[j]) == w;
      assert kept[j] in kept;
      var i :| 0 <= i < |s| && SurvivesSift(s, room, i) && s[i] == kept[j];
      assert ClassOf(s[i]) == w;
    }
    if ClassSurvivesSift(s, room, w) {
      var i :| 0 <= i < |s| && ClassOf(s[i]) == w && SurvivesSift(s, room, i);
      assert s[i] in kept;
      var j :| 0 <= j < |kept| && kept[j] == s[i];
      assert ClassOf(kept[j]) == w;
    }
  }

  /** Built from a list over its cap, a set reports the worst class of the whole list exactly if a
      dependency of that class is a proof or stands, in sorted order, before the others fill the room. */
  lemma SeverityAfterBuild(ds: seq<Dep>, cap: nat, w: Consequence)
    requires WorstOf(ds) == Some(w) && |ds| > OneOrMore(cap)
    ensures WorstOf(FromDependencies(ds, cap).deps) == Some(w) <==>
            ClassSurvivesSift(Sorted(ds), RoomLeft(ds, OneOrMore(cap)), w)
  {
    var s, room := Sorted(ds), RoomLeft(ds, OneOrMore(cap));
    var (t, others) := Sifted(s, room, |s|);
    assert FromDependencies(ds, cap) == t;
    hide *;
    SiftedHas(s, room, |s|);
    BuildKeepsMembers(ds, cap);
    PartSeverity(t.deps, ds, w);
    SurvivorsClass(s, room, t.deps, others, w);
  }

  lemma SortedHas(ds: seq<Dep>, d: Dep)
    ensures d in Sorted(ds) <==> d in ds
  {
    SortedIs(ds);
    assert d in Sorted(ds) <==> d in multiset(Sorted(ds));
    assert d in ds <==> d in multiset(ds);
  }

  lemma BuildKeepsMembers(ds: seq<Dep>, cap: nat)
    ensures forall d :: d in FromDependencies(ds, cap).deps ==> d in ds
  {
    if |ds| > OneOrMore(cap) {
      var s, room := Sorted(ds), RoomLeft(ds, OneOrMore(cap));
      SiftedHas(s, room, |s|);
      hide Sorted, Sifted, SurvivesSift, RoomLeft;
      forall d | d in FromDependencies(ds, cap).deps ensures d in ds {
        SortedHas(ds, d);
      }
    }
  }

  // ---------------------------------------------------------------------------------------------
  // Adding one at a time: which positions are kept

  function Picked(ds: seq<Dep>, ps: seq<nat>): (r: seq<Dep>)
    requires forall i :: 0 <= i < |ps| ==> ps[i] < |ds|
    ensures |r| == |ps| && forall i :: 0 <= i < |ps| ==> r[i] == ds[ps[i]]
  {
    seq(|ps|, i requires 0 <= i < |ps| => ds[ps[i]])
  }

  function Removed(ps: seq<nat>, k: nat): (r: seq<nat>)
    requires k < |ps|
    ensures |r| == |ps| - 1 && forall i :: 0 <= i < |r| ==> r[i] == ps[if i < k then i else i + 1]
  {
    ps[..k] + ps[k + 1..]
  }

  lemma RemovedIsIn(ps: seq<nat>, k: nat)
    requires k < |ps|
    ensures forall i :: 0 <= i < |Removed(ps, k)| ==> Removed(ps, k)[i] in ps
  {
    var r := Removed(ps, k);
    forall i | 0 <= i < |r| ensures r[i] in ps {
      assert ps[if i < k then i else i + 1] in ps;
    }
  }

  /** Over the cap, the strongest of the positions `ps` goes. */
  function Trimmed(ds: seq<Dep>, ps: seq<nat>, cap: nat): (r: seq<nat>)
    requires forall i :: 0 <= i < |ps| ==> ps[i] < |ds|
    ensures forall i :: 0 <= i < |r| ==> r[i] in ps
  {
    if |ps| <= OneOrMore(cap) then ps
    else
      StrongestIs(Picked(ds, ps), |ps|);
      match Strongest(Picked(ds, ps), |ps|)
      case None => ps
      case Some(k) => RemovedIsIn(ps, k); Removed(ps, k)
  }

  /** The positions still kept after the first `n` pushes. */
  function KeptAt(ds: seq<Dep>, cap: nat, n: nat): (ps: seq<nat>)
    requires n <= |ds|
    ensures forall i :: 0 <= i < |ps| ==> ps[i] < n
  {
    if n == 0 then []
    else
      Trimmed(ds, KeptAt(ds, cap, n - 1) + [n - 1], cap)
  }

  lemma PickedRemoved(ds: seq<Dep>, ps: seq<nat>, k: nat)
    requires (forall i :: 0 <= i < |ps| ==> ps[i] < |ds|) && k < |ps|
    ensures forall i :: 0 <= i < |Removed(ps, k)| ==> Removed(ps, k)[i] < |ds|
    ensures Picked(ds, Removed(ps, k)) == Without(Picked(ds, ps), k)
  {
  }

  lemma {:induction false} KeptIsPushed(ds: seq<Dep>, cap: nat, n: nat)
    requires n <= |ds|
    ensures PushAll(ds[..n], cap).deps == Picked(ds, KeptAt(ds, cap, n))
  {
    if n > 0 {
      KeptIsPushed(ds, cap, n - 1);
      assert ds[..n][..n - 1] == ds[..n - 1];
      var ps := KeptAt(ds, cap, n - 1) + [n - 1];
      var s := PushAll(ds[..n - 1], cap);
      assert s.deps + [ds[n - 1]] == Picked(ds, ps);
      assert PushAll(ds[..n], cap) == Pushed(s, ds[n - 1], cap);
      hide PushAll, Picked, Strongest, Pushed, Trimmed;
      TrimmedIsPushed(ds, ps, cap, s, ds[n - 1]);
    }
  }

  lemma TrimmedIsPushed(ds: seq<Dep>, ps: seq<nat>, cap: nat, s: Set, d: Dep)
    requires (forall i :: 0 <= i < |ps| ==> ps[i] < |ds|) && s.deps + [d] == Picked(ds, ps)
    ensures forall i :: 0 <= i < |Trimmed(ds, ps, cap)| ==> Trimmed(ds, ps, cap)[i] < |ds|
    ensures Pushed(s, d, cap).deps == Picked(ds, Trimmed(ds, ps, cap))
  {
    StrongestIs(Picked(ds, ps), |ps|);
    hide Strongest;
    var r := Strongest(Picked(ds, ps), |ps|);
    if |ps| > OneOrMore(cap) && r.Some? {
      PickedRemoved(ds, ps, r.value);
    }
  }

  /** Position `j` comes before position `i`: weaker, or as strong and added earlier. */
  predicate Precedes(ds: seq<Dep>, j: nat, i: nat)
    requires j < |ds| && i < |ds|
  {
    ds[j].freshness < ds[i].freshness || (ds[j].freshness == ds[i].freshness && j < i)
  }

  lemma Transitive(ds: seq<Dep>, i: nat, j: nat, k: nat)
    requires i < |ds| && j < |ds| && k < |ds|
    ensures Precedes(ds, i, j) && Precedes(ds, j, k) ==> Precedes(ds, i, k)
  {
  }

  predicate Increasing(ps: seq<nat>) {
    forall i, j :: 0 <= i < j < |ps| ==> ps[i] < ps[j]
  }

  /** What pushes keep: all proofs, and with a non-proof every one that precedes it; the cap is reached
      before anything goes. */
  ghost predicate KeepsFirst(ds: seq<Dep>, ps: seq<nat>, cap: nat, n: nat)
    requires n <= |ds|
  {
    && (forall x :: x in ps ==> x < n) && Increasing(ps)
    && (forall j: nat :: j < n && IsProof(ds[j]) ==> j in ps)
    && (forall x, j: nat :: x in ps && !IsProof(ds[x]) && j < n && j !in ps ==> Precedes(ds, x, j))
    && (|ps| >= OneOrMore(cap) || forall j: nat :: j < n ==> j in ps)
  }

  lemma {:induction false} StrongestIsLast(ds: seq<Dep>, n: nat)
    requires n <= |ds|
    ensures var r := Strongest(ds, n);
            r.Some? ==>
              r.value < n
              && forall i :: r.value < i < n && !IsProof(ds[i]) ==> ds[i].freshness < ds[r.value].freshness
  {
    if n > 0 {
      StrongestIsLast(ds, n - 1);
      StrongestIs(ds, n - 1);
    }
  }

  lemma RemovedHas(ps: seq<nat>, k: nat)
    requires Increasing(ps) && k < |ps|
    ensures Increasing(Removed(ps, k)) && |Removed(ps, k)| == |ps| - 1
    ensures forall x :: x in Removed(ps, k) <==> x in ps && x != ps[k]
  {
    var r := Removed(ps, k);
    forall x | x in ps && x != ps[k] ensures x in r {
      var i :| 0 <= i < |ps| && ps[i] == x;
      assert r[if i < k then i else i - 1] == x;
    }
  }

  /** The one that goes comes after all the other non-proofs that are kept. */
  lemma {:induction false} LastGoes(ds: seq<Dep>, ps: seq<nat>, k: nat, x: nat)
    requires (forall i :: 0 <= i < |ps| ==> ps[i] < |ds|) && Increasing(ps)
    requires Strongest(Picked(ds, ps), |ps|) == Some(k)
    requires x in ps && !IsProof(ds[x]) && (k < |ps| ==> x != ps[k])
    ensures k < |ps| && !IsProof(ds[ps[k]]) && Precedes(ds, x, ps[k])
  {
    StrongestIs(Picked(ds, ps), |ps|);
    StrongestIsLast(Picked(ds, ps), |ps|);
    var i :| 0 <= i < |ps| && ps[i] == x;
    assert Picked(ds, ps)[i] == ds[x];
  }

  lemma SnocHas(ps: seq<nat>, n: nat)
    requires Increasing(ps) && forall x :: x in ps ==> x < n
    ensures Increasing(ps + [n]) && |ps + [n]| == |ps| + 1
    ensures forall x :: x in ps + [n] <==> x in ps || x == n
  {
    forall i | 0 <= i < |ps| ensures (ps + [n])[i] < n {
      assert ps[i] in ps;
    }
  }

  /** One push keeps the first: `ps` are the positions kept before it and the new one. */
  lemma TrimKeepsFirst(ds: seq<Dep>, prev: seq<nat>, ps: seq<nat>, cap: nat, n: nat)
    requires n < |ds| && KeepsFirst(ds, prev, cap, n) && ps == prev + [n]
    ensures forall i :: 0 <= i < |ps| ==> ps[i] < |ds|
    ensures KeepsFirst(ds, Trimmed(ds, ps, cap), cap, n + 1)
  {
    SnocHas(prev, n);
    assert forall i :: 0 <= i < |ps| ==> ps[i] in ps;
    var c := OneOrMore(cap);
    if |ps| > c {
      StrongestIs(Picked(ds, ps), |ps|);
      var r := Strongest(Picked(ds, ps), |ps|);
      hide Strongest, Increasing, Removed, Precedes;
      if r.Some? {
        DropKeepsFirst(ds, prev, ps, cap, n, r.value);
      } else {
        AllProofs(ds, ps, n);
      }
    }
  }

  lemma AllProofs(ds: seq<Dep>, ps: seq<nat>, n: nat)
    requires forall i :: 0 <= i < |ps| ==> ps[i] < |ds|
    requires Strongest(Picked(ds, ps), |ps|).None?
    ensures forall x :: x in ps ==> IsProof(ds[x])
  {
    StrongestIs(Picked(ds, ps), |ps|);
    forall x | x in ps ensures IsProof(ds[x]) {
      var i :| 0 <= i < |ps| && ps[i] == x;
      assert Picked(ds, ps)[i] == ds[x];
    }
  }

  lemma DropKeepsFirst(ds: seq<Dep>, prev: seq<nat>, ps: seq<nat>, cap: nat, n: nat, k: nat)
    requires n < |ds| && KeepsFirst(ds, prev, cap, n) && ps == prev + [n] && |ps| > OneOrMore(cap) && k < |ps|
    requires (forall x :: x in ps ==> x <= n) && forall i :: 0 <= i < |ps| ==> ps[i] < |ds|
    requires Increasing(ps) && Strongest(Picked(ds, ps), |ps|) == Some(k) && !IsProof(ds[ps[k]])
    ensures KeepsFirst(ds, Removed(ps, k), cap, n + 1)
  {
    var r, gone := Removed(ps, k), ps[k];
    RemovedHas(ps, k);
    SnocHas(prev, n);
    hide Strongest, Increasing, Removed, Picked, Precedes;
    assert gone in ps;
    forall x, j: nat | x in r && !IsProof(ds[x]) && j < n + 1 && j !in r ensures Precedes(ds, x, j) {
      LastGoes(ds, ps, k, x);
      if j != gone {
        assert j < n && j !in prev;
        assert gone in prev ==> Precedes(ds, gone, j);
        assert x in prev ==> Precedes(ds, x, j);
        Transitive(ds, x, gone, j);
      }
    }
  }

  lemma {:induction false} PushesKeepFirst(ds: seq<Dep>, cap: nat, n: nat)
    requires n <= |ds|
    ensures KeepsFirst(ds, KeptAt(ds, cap, n), cap, n)
  {
    if n > 0 {
      PushesKeepFirst(ds, cap, n - 1);
      var prev := KeptAt(ds, cap, n - 1);
      hide KeepsFirst, Trimmed;
      TrimKeepsFirst(ds, prev, prev + [n - 1], cap, n - 1);
    }
  }

  function OthersIn(ds: seq<Dep>, ps: seq<nat>): set<nat>
    requires forall i :: 0 <= i < |ps| ==> ps[i] < |ds|
  {
    set i | 0 <= i < |ps| && !IsProof(ds[ps[i]]) :: ps[i]
  }

  lemma OthersSnoc(ds: seq<Dep>, front: seq<nat>, x: nat)
    requires (forall i :: 0 <= i < |front| ==> front[i] < |ds|) && x < |ds| && x !in front
    ensures |OthersIn(ds, front + [x])| == |OthersIn(ds, front)| + if IsProof(ds[x]) then 0 else 1
  {
    var a, b := OthersIn(ds, front), OthersIn(ds, front + [x]);
    OthersInAre(ds, front);
    OthersInAre(ds, front + [x]);
    hide OthersIn, IsProof;
    assert forall y :: y in front + [x] <==> y in front || y == x;
    assert b == if IsProof(ds[x]) then a else a + {x};
  }

  lemma {:induction false} OthersCount(ds: seq<Dep>, ps: seq<nat>)
    requires (forall i :: 0 <= i < |ps| ==> ps[i] < |ds|) && Increasing(ps)
    ensures |OthersIn(ds, ps)| == |Others(Picked(ds, ps))|
  {
    if ps != [] {
      var front, x := ps[..|ps| - 1], ps[|ps| - 1];
      OthersCount(ds, front);
      assert Picked(ds, ps) == Picked(ds, front) + [ds[x]] && ps == front + [x];
      assert x !in front;
      hide OthersIn, Picked, Increasing, Others;
      Snoc(Picked(ds, front), ds[x]);
      OthersSnoc(ds, front, x);
    }
  }

  /** The non-proofs that come before position `i`. */
  function Ahead(ds: seq<Dep>, i: nat): set<nat>
    requires i < |ds|
  {
    set j: nat | j < |ds| && !IsProof(ds[j]) && Precedes(ds, j, i)
  }

  lemma AheadIs(ds: seq<Dep>, i: nat)
    requires i < |ds|
    ensures forall j: nat :: j in Ahead(ds, i) <==> j < |ds| && !IsProof(ds[j]) && Precedes(ds, j, i)
    ensures forall j: nat :: j < |ds| && Precedes(ds, j, i) ==> !Precedes(ds, i, j)
    ensures i !in Ahead(ds, i)
    ensures forall j: nat :: j < |ds| && j != i && !Precedes(ds, j, i) ==> Precedes(ds, i, j)
  {
  }

  function AllPositions(ds: seq<Dep>): (ps: seq<nat>)
    ensures |ps| == |ds| && forall i :: 0 <= i < |ds| ==> ps[i] == i
  {
    seq(|ds|, i requires 0 <= i => i)
  }

  lemma KeptOthers(ds: seq<Dep>, cap: nat) returns (kept: set<nat>, all: set<nat>)
    ensures kept <= all && |kept| == Room(ds, OneOrMore(cap)) && |all| == |Others(ds)|
    ensures forall i: nat :: i in all <==> i < |ds| && !IsProof(ds[i])
    ensures forall i: nat :: i in kept <==> i in KeptAt(ds, cap, |ds|) && i in all
    ensures forall x, j: nat :: x in kept && j in all && j !in kept ==> Precedes(ds, x, j)
  {
    var ps := KeptAt(ds, cap, |ds|);
    PushesKeepFirst(ds, cap, |ds|);
    KeptIsPushed(ds, cap, |ds|);
    TakeAll(ds);
    PushAllSummarises(ds, cap);
    assert Picked(ds, AllPositions(ds)) == ds;
    OthersCount(ds, ps);
    OthersCount(ds, AllPositions(ds));
    hide KeptAt, PushAll, Picked, Precedes, Room;
    kept, all := OthersIn(ds, ps), OthersIn(ds, AllPositions(ds));
    OthersInAre(ds, ps);
    OthersInAre(ds, AllPositions(ds));
  }

  lemma OthersInAre(ds: seq<Dep>, ps: seq<nat>)
    requires forall i :: 0 <= i < |ps| ==> ps[i] < |ds|
    ensures forall x :: x in OthersIn(ds, ps) <==> x in ps && x < |ds| && !IsProof(ds[x])
  {
  }

  /** Exactly the proofs survive all pushes, and the non-proofs that have fewer others ahead of them than
      there is room. */
  predicate SurvivesPushes(ds: seq<Dep>, cap: nat, i: nat)
    requires i < |ds|
  {
    IsProof(ds[i]) || |Ahead(ds, i)| < RoomLeft(ds, OneOrMore(cap))
  }

  lemma PushSurvival(ds: seq<Dep>, cap: nat, i: nat)
    requires i < |ds|
    ensures i in KeptAt(ds, cap, |ds|) <==> SurvivesPushes(ds, cap, i)
  {
    if IsProof(ds[i]) {
      PushesKeepFirst(ds, cap, |ds|);
    } else {
      var kept, all := KeptOthers(ds, cap);
      var ahead := Ahead(ds, i);
      AheadIs(ds, i);
      hide KeptAt, Ahead, Precedes, IsProof, Others, Proofs;
      if i in kept {
        assert ahead <= kept && i !in ahead;
        Smaller(ahead, kept);
      } else {
        assert kept <= ahead;
        Smaller(kept, ahead);
        Smaller(kept, all);
      }
    }
  }

  lemma PushedHas(ds: seq<Dep>, cap: nat, d: Dep)
    ensures d in PushAll(ds, cap).deps <==> exists i :: 0 <= i < |ds| && ds[i] == d && SurvivesPushes(ds, cap, i)
  {
    var ps, kept := KeptAt(ds, cap, |ds|), PushAll(ds, cap).deps;
    KeptIsPushed(ds, cap, |ds|);
    TakeAll(ds);
    hide KeptAt, PushAll, SurvivesPushes;
    if i :| 0 <= i < |ds| && ds[i] == d && SurvivesPushes(ds, cap, i) {
      PushSurvival(ds, cap, i);
      var j :| 0 <= j < |ps| && ps[j] == i;
      assert kept[j] == d;
    }
    if d in kept {
      var j :| 0 <= j < |kept| && kept[j] == d;
      assert ps[j] in ps;
      PushSurvival(ds, cap, ps[j]);
    }
  }

  ghost predicate ClassSurvivesPushes(ds: seq<Dep>, cap: nat, w: Consequence) {
    exists i :: 0 <= i < |ds| && ClassOf(ds[i]) == w && SurvivesPushes(ds, cap, i)
  }

  /** Built by pushes, a set reports the worst class of everything pushed exactly if a dependency of that
      class is a proof or has fewer others ahead of it than there is room. */
  lemma SeverityAfterPushes(ds: seq<Dep>, cap: nat, w: Consequence)
    requires WorstOf(ds) == Some(w)
    ensures WorstOf(PushAll(ds, cap).deps) == Some(w) <==> ClassSurvivesPushes(ds, cap, w)
  {
    var kept := PushAll(ds, cap).deps;
    hide PushAll, SurvivesPushes, ClassOf, WorstOf;
    forall d ensures d in kept <==> exists i :: 0 <= i < |ds| && ds[i] == d && SurvivesPushes(ds, cap, i) {
      PushedHas(ds, cap, d);
    }
    PartSeverity(kept, ds, w);
    if ClassSurvivesPushes(ds, cap, w) {
      var i :| 0 <= i < |ds| && ClassOf(ds[i]) == w && SurvivesPushes(ds, cap, i);
      assert ds[i] in kept;
      var j :| 0 <= j < |kept| && kept[j] == ds[i];
      assert ClassOf(kept[j]) == w;
    }
    if HasClass(kept, w) {
      var j :| 0 <= j < |kept| && ClassOf(kept[j]) == w;
      assert kept[j] in kept;
      var i :| 0 <= i < |ds| && ds[i] == kept[j] && SurvivesPushes(ds, cap, i);
      assert ClassOf(ds[i]) == w;
    }
  }

  /** An answer and a fresher delegation: with room for one the delegation goes, and its class with it. */
  lemma TrimmingHidesSeverity(a: Dep, b: Dep)
    requires a.role == Answer && b.role == Delegation && a.freshness < b.freshness
    ensures PushAll([a, b], 1) == Set([a], b.freshness) && PushAll([a, b], 2) == Set([a, b], 1.0)
    ensures WorstOf([a]) == Some(Low) && WorstOf([a, b]) == Some(Critical)
  {
    var all := [a, b];
    assert all[..1] == [a] && [a][..0] == [] && ([] + [a]) == [a] && [a] + [b] == all;
    assert PushAll([a], 1) == Set([a], 1.0) && PushAll([a], 2) == Set([a], 1.0);
    assert Strongest(all, 1) == Some(0);
    assert Strongest(all, 2) == Some(1);
    assert Without(all, 1) == [a];
    assert WorstOf([a]) == Some(Low);
  }
}
