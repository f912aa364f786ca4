/** A closure that is cut off keeps the nearest keys (src/alias.rs). */
module AliasOrder {
  import opened Alias
  import opened Bounded

  /** The targets of all keys in `s`. */
  function TargetsOf(m: Links, s: set<Key>): set<Key> {
    set a, b | a in s && a in m && b in m[a] :: b
  }

  /** The keys that at most `d` links lead to. */
  function Ball(m: Links, key: Key, d: nat): set<Key> {
    if d == 0 then {key} else Ball(m, key, d - 1) + TargetsOf(m, Ball(m, key, d - 1))
  }

  lemma TargetsHave(m: Links, s: set<Key>, x: Key, y: Key)
    requires x in s && y in At(m, x)
    ensures y in TargetsOf(m, s)
  {
  }

  lemma TargetsAre(m: Links, s: set<Key>, y: Key) returns (x: Key)
    requires y in TargetsOf(m, s)
    ensures x in s && y in At(m, x)
  {
    x :| x in s && x in m && y in m[x];
  }

  /** After `n` targets have been met they are known, and those that were not before are queued behind. */
  lemma {:induction false} MetAdds(targets: seq<Key>, n: nat, f: Frontier)
    requires n <= |targets|
    ensures var g := Met(targets, n, f);
            && f.known <= g.known && |f.queue| <= |g.queue| && g.queue[..|f.queue|] == f.queue
            && (forall i :: 0 <= i < n ==> targets[i] in g.known)
            && (forall x :: x in g.known && x !in f.known ==> x in g.queue[|f.queue|..])
            && (forall x :: x in g.queue[|f.queue|..] ==> x in g.known && x in targets[..n])
  {
    if n > 0 {
      MetAdds(targets, n - 1, f);
      var g, x := Met(targets, n - 1, f), targets[n - 1];
      assert targets[..n] == targets[..n - 1] + [x];
      if x !in g.known {
        var h := Met(targets, n, f);
        assert h.queue[|f.queue|..] == g.queue[|f.queue|..] + [x];
        assert h.queue[..|f.queue|] == g.queue[..|f.queue|];
      }
    }
  }

  /** The first `i` keys of the queue are at most `d` links away and all that is left to expand there; the
      others are one link further. */
  ghost predicate Layered(m: Links, key: Key, f: Frontier, d: nat, i: nat) {
    && i <= |f.queue| && Ball(m, key, d) <= f.known
    && (forall x :: x in f.known ==> x in Ball(m, key, d) || x in f.queue[i..])
    && (forall x :: x in f.queue[i..] ==> x in Ball(m, key, d + 1))
    && (forall x :: x in f.queue[..i] ==> x in Ball(m, key, d))
    && (forall x :: x in Ball(m, key, d) && x !in f.queue[..i] ==> At(m, x) <= f.known)
  }

  /** Once nothing is left to expand at a distance, everything one link further is known. */
  lemma NextLayer(m: Links, key: Key, f: Frontier, d: nat)
    requires Layered(m, key, f, d, 0)
    ensures Layered(m, key, f, d + 1, |f.queue|)
  {
    var near, far, q := Ball(m, key, d), Ball(m, key, d + 1), f.queue;
    assert q[0..] == q && q[..|q|] == q && q[|q|..] == [] && q[..0] == [];
    forall y | y in far ensures y in f.known {
      if y !in near {
        var x := TargetsAre(m, near, y);
      }
    }
    forall x | x in far && x !in q ensures At(m, x) <= f.known {
      assert x in f.known;
    }
  }

  /** What expanding the front of the queue adds, and where. */
  lemma ExpandedAdds(m: Links, f: Frontier) returns (more: seq<Key>)
    requires f.queue != []
    ensures var g, targets := Expanded(m, f), At(m, f.queue[0]);
            && g.queue == f.queue[1..] + more && f.known <= g.known && targets <= g.known
            && (forall x :: x in more ==> x in targets && x in g.known)
            && (forall x :: x in g.known && x !in f.known ==> x in more)
  {
    var rest, targets := f.queue[1..], InOrder(At(m, f.queue[0]));
    var g := Expanded(m, f);
    InOrderLists(At(m, f.queue[0]));
    hide Met, InOrder;
    MetAdds(targets, |targets|, Frontier(f.known, rest));
    more := g.queue[|rest|..];
    assert targets[..|targets|] == targets;
    forall x | x in At(m, f.queue[0]) ensures x in g.known {
      var j := Position(At(m, f.queue[0]), x);
      assert targets[j] == x;
    }
  }

  lemma SplitQueue(q: seq<Key>, more: seq<Key>, i: nat)
    requires 0 < i <= |q|
    ensures var r := q[1..] + more;
            && i - 1 <= |r| && q[..i] == [q[0]] + r[..i - 1] && r[i - 1..] == q[i..] + more
  {
  }

  lemma ExpandLayer(m: Links, key: Key, f: Frontier, d: nat, i: nat)
    requires Layered(m, key, f, d, i) && i > 0
    ensures Layered(m, key, Expanded(m, f), d, i - 1)
  {
    var cur, g := f.queue[0], Expanded(m, f);
    var more := ExpandedAdds(m, f);
    SplitQueue(f.queue, more, i);
    hide Expanded, Ball;
    assert cur in f.queue[..i];
    forall x | x in more ensures x in Ball(m, key, d + 1) {
      Further(m, key, d, cur, x);
    }
  }

  lemma Further(m: Links, key: Key, d: nat, x: Key, y: Key)
    requires x in Ball(m, key, d) && y in At(m, x)
    ensures y in Ball(m, key, d + 1)
  {
    TargetsHave(m, Ball(m, key, d), x, y);
  }

  lemma LayerStep(m: Links, key: Key, f: Frontier, d: nat, i: nat) returns (d': nat, i': nat)
    requires Layered(m, key, f, d, i) && f.queue != []
    ensures Layered(m, key, Expanded(m, f), d', i')
  {
    hide Layered, Expanded;
    d', i' := d, i;
    if i == 0 {
      NextLayer(m, key, f, d);
      d', i' := d + 1, |f.queue|;
    }
    ExpandLayer(m, key, f, d', i');
    i' := i' - 1;
  }

  lemma FirstLayer(m: Links, key: Key)
    ensures Layered(m, key, Frontier({key}, [key]), 0, 1)
  {
    assert [key][..1] == [key] && [key][1..] == [];
  }

  lemma {:induction false} WalkIsLayered(m: Links, key: Key, k: nat) returns (d: nat, i: nat)
    ensures Layered(m, key, Walk(m, key, k), d, i)
  {
    hide Layered, Expanded;
    if k == 0 {
      d, i := 0, 1;
      FirstLayer(m, key);
    } else {
      d, i := WalkIsLayered(m, key, k - 1);
      var f := Walk(m, key, k - 1);
      if f.queue != [] {
        d, i := LayerStep(m, key, f, d, i);
      }
    }
  }

  /** For some `d`, the closure has every key up to `d` links away and none more than `d + 1` away. */
  lemma ClosureIsNearest(m: Links, key: Key, max: nat) returns (d: nat)
    ensures Ball(m, key, d) <= ClosureOf(m, key, max) <= Ball(m, key, d + 1)
  {
    var i;
    d, i := WalkIsLayered(m, key, LastStage(m, key, max));
    hide Walk, LastStage, TargetsOf;
  }
}
