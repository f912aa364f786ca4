/** The alias graph: a relation, its converse, and a counter of its pairs (src/alias.rs). Keys are naturals
    in key order. */
module Alias {
  import opened Bounded
  import opened Sets

  type Key = nat

  type Links = map<Key, set<Key>>

  /** The graph; `fwd` says what a key depends on and `rev` what depends on it. */
  datatype Graph = Graph(maxEdges: nat, pruneAgeSecs: nat, fwd: Links, rev: Links, seen: map<Key, int>, edges: nat)

  function At(m: Links, k: Key): set<Key> {
    if k in m then m[k] else {}
  }

  function With(m: Links, a: Key, b: Key): Links {
    m[a := At(m, a) + {b}]
  }

  /** `link`: idempotent, and refused at the cap. */
  function Linked(g: Graph, a: Key, b: Key, now: int): Graph {
    var s := g.(seen := g.seen[a := now][b := now]);
    if b in At(g.fwd, a) || g.edges >= g.maxEdges then s
    else s.(fwd := With(g.fwd, a, b), rev := With(g.rev, b, a), edges := g.edges + 1)
  }

  /** One side of `prune`: live keys keep their live links, and a key without links goes. */
  function Cut(m: Links, dead: set<Key>): Links {
    map k | k in m && k !in dead && m[k] - dead != {} :: m[k] - dead
  }

  /** The number of links, summed over the first `n` keys. */
  function Total(m: Links, keys: seq<Key>, n: nat): nat
    requires n <= |keys|
  {
    if n == 0 then 0 else Total(m, keys, n - 1) + |At(m, keys[n - 1])|
  }

  function EdgeCount(m: Links): nat {
    Total(m, InOrder(m.Keys), |InOrder(m.Keys)|)
  }

  function Dead(seen: map<Key, int>, cutoff: int): set<Key> {
    set k | k in seen && seen[k] < cutoff
  }

  const NS_PER_SEC: int := 1000000000

  function Cutoff(g: Graph, now: int, minAgeSecs: nat): int {
    now - (if minAgeSecs == 0 then g.pruneAgeSecs else minAgeSecs) * NS_PER_SEC
  }

  /** `prune`. */
  function Pruned(g: Graph, now: int, minAgeSecs: nat): Graph {
    var dead := Dead(g.seen, Cutoff(g, now, minAgeSecs));
    if dead == {} then g
    else
      g.(seen := g.seen - dead, fwd := Cut(g.fwd, dead), rev := Cut(g.rev, dead), edges := EdgeCount(Cut(g.fwd, dead)))
  }

  // ---------------------------------------------------------------------------------------------
  // The relation

  /** The pairs of a side whose first component is in `ks`. */
  function PairsFrom(m: Links, ks: set<Key>): set<(Key, Key)> {
    set a, b | a in ks && a in m && b in m[a] :: (a, b)
  }

  function Pairs(m: Links): set<(Key, Key)> {
    PairsFrom(m, m.Keys)
  }

  function Row(a: Key, bs: set<Key>): set<(Key, Key)> {
    set b | b in bs :: (a, b)
  }

  lemma {:induction false} RowSize(a: Key, bs: set<Key>)
    ensures |Row(a, bs)| == |bs|
    decreases bs
  {
    if bs != {} {
      var b :| b in bs;
      RowSize(a, bs - {b});
      assert Row(a, bs) == Row(a, bs - {b}) + {(a, b)};
    }
  }

  lemma AddRow(m: Links, ks: set<Key>, a: Key)
    requires a !in ks
    ensures |PairsFrom(m, ks + {a})| == |PairsFrom(m, ks)| + |At(m, a)|
  {
    var before, row := PairsFrom(m, ks), Row(a, At(m, a));
    assert PairsFrom(m, ks + {a}) == before + row;
    assert before !! row;
    RowSize(a, At(m, a));
  }

  function FirstKeys(keys: seq<Key>, n: nat): set<Key>
    requires n <= |keys|
  {
    if n == 0 then {} else FirstKeys(keys, n - 1) + {keys[n - 1]}
  }

  lemma {:induction false} FirstKeysAre(keys: seq<Key>, n: nat)
    requires n <= |keys| && Ascending(keys)
    ensures forall i :: 0 <= i < |keys| ==> (keys[i] in FirstKeys(keys, n) <==> i < n)
    ensures forall k :: k in FirstKeys(keys, n) ==> exists i :: 0 <= i < n && keys[i] == k
  {
    if n > 0 {
      FirstKeysAre(keys, n - 1);
      assert forall i :: 0 <= i < |keys| && i != n - 1 ==> keys[i] != keys[n - 1];
    }
  }

  lemma {:induction false} TotalIs(m: Links, keys: seq<Key>, n: nat)
    requires n <= |keys| && Ascending(keys)
    ensures Total(m, keys, n) == |PairsFrom(m, FirstKeys(keys, n))|
  {
    if n > 0 {
      TotalIs(m, keys, n - 1);
      FirstKeysAre(keys, n - 1);
      AddRow(m, FirstKeys(keys, n - 1), keys[n - 1]);
    } else {
      assert PairsFrom(m, {}) == {};
    }
  }

  /** The recount finds exactly the pairs. */
  lemma EdgeCountIs(m: Links)
    ensures EdgeCount(m) == |Pairs(m)|
  {
    var keys := InOrder(m.Keys);
    InOrderLists(m.Keys);
    TotalIs(m, keys, |keys|);
    FirstKeysAre(keys, |keys|);
    forall k | k in m.Keys ensures k in FirstKeys(keys, |keys|) {
      var i := Position(m.Keys, k);
    }
    assert FirstKeys(keys, |keys|) == m.Keys;
  }

  // ---------------------------------------------------------------------------------------------
  // Invariant

  ghost predicate Converse(fwd: Links, rev: Links) {
    forall a: Key, b: Key :: b in At(fwd, a) <==> a in At(rev, b)
  }

  ghost predicate NoEmptyRow(m: Links) {
    forall a :: a in m ==> m[a] != {}
  }

  /** The two sides are converse relations without empty rows, the counter counts their pairs and stays
      within the cap. */
  ghost predicate Valid(g: Graph) {
    && Converse(g.fwd, g.rev) && NoEmptyRow(g.fwd) && NoEmptyRow(g.rev)
    && g.edges == |Pairs(g.fwd)| && g.edges <= g.maxEdges
  }

  lemma PairsHas(m: Links, p: (Key, Key))
    ensures p in Pairs(m) <==> p.1 in At(m, p.0)
  {
  }

  lemma WithIs(m: Links, a: Key, b: Key)
    ensures forall x: Key, y: Key :: y in At(With(m, a, b), x) <==> y in At(m, x) || (x == a && y == b)
  {
  }

  lemma WithPairs(m: Links, a: Key, b: Key)
    requires b !in At(m, a)
    ensures Pairs(With(m, a, b)) == Pairs(m) + {(a, b)} && |Pairs(With(m, a, b))| == |Pairs(m)| + 1
  {
    WithIs(m, a, b);
    hide Pairs, With, At;
    var n := With(m, a, b);
    forall p ensures p in Pairs(n) <==> p in Pairs(m) + {(a, b)} {
      PairsHas(n, p);
      PairsHas(m, p);
    }
    PairsHas(m, (a, b));
  }

  lemma LinkConverse(fwd: Links, rev: Links, a: Key, b: Key)
    requires Converse(fwd, rev) && NoEmptyRow(fwd) && NoEmptyRow(rev)
    ensures Converse(With(fwd, a, b), With(rev, b, a)) && NoEmptyRow(With(fwd, a, b)) && NoEmptyRow(With(rev, b, a))
  {
    WithIs(fwd, a, b);
    WithIs(rev, b, a);
  }

  lemma LinkAgain(m: Links, a: Key, b: Key)
    requires b in At(m, a)
    ensures Pairs(m) + {(a, b)} == Pairs(m)
  {
  }

  /** Linking adds the pair to both sides unless it is there or the graph is full, and keeps the invariant. */
  lemma LinkKeeps(g: Graph, a: Key, b: Key, now: int)
    requires Valid(g)
    ensures Valid(Linked(g, a, b, now))
    ensures Pairs(Linked(g, a, b, now).fwd)
            == if g.edges < g.maxEdges then Pairs(g.fwd) + {(a, b)} else Pairs(g.fwd)
  {
    hide Pairs, Converse, NoEmptyRow, With, At;
    if b in At(g.fwd, a) {
      LinkAgain(g.fwd, a, b);
    } else if g.edges < g.maxEdges {
      LinkConverse(g.fwd, g.rev, a, b);
      WithPairs(g.fwd, a, b);
    }
  }

  lemma CutIs(m: Links, dead: set<Key>, x: Key, y: Key)
    ensures y in At(Cut(m, dead), x) <==> y in At(m, x) && x !in dead && y !in dead
  {
    assert x in m && y in m[x] && y !in dead ==> y in m[x] - dead;
  }

  lemma CutShrinks(m: Links, dead: set<Key>)
    ensures Pairs(Cut(m, dead)) <= Pairs(m)
  {
    forall p | p in Pairs(Cut(m, dead)) ensures p in Pairs(m) {
      PairsHas(Cut(m, dead), p);
      PairsHas(m, p);
      CutIs(m, dead, p.0, p.1);
    }
  }

  lemma CutConverse(fwd: Links, rev: Links, dead: set<Key>)
    requires Converse(fwd, rev)
    ensures Converse(Cut(fwd, dead), Cut(rev, dead)) && NoEmptyRow(Cut(fwd, dead)) && NoEmptyRow(Cut(rev, dead))
  {
    forall a: Key, b: Key ensures b in At(Cut(fwd, dead), a) <==> a in At(Cut(rev, dead), b) {
      CutIs(fwd, dead, a, b);
      CutIs(rev, dead, b, a);
    }
  }

  /** Pruning keeps the invariant, with a fresh count. */
  lemma PruneKeeps(g: Graph, now: int, minAgeSecs: nat)
    requires Valid(g)
    ensures Valid(Pruned(g, now, minAgeSecs))
  {
    hide Pairs, EdgeCount, Converse, NoEmptyRow, Cut;
    var dead := Dead(g.seen, Cutoff(g, now, minAgeSecs));
    CutConverse(g.fwd, g.rev, dead);
    CutShrinks(g.fwd, dead);
    EdgeCountIs(Cut(g.fwd, dead));
    Smaller(Pairs(Cut(g.fwd, dead)), Pairs(g.fwd));
  }

  /** What is left is exactly the relation between live keys. */
  lemma PruneRestricts(g: Graph, now: int, minAgeSecs: nat, a: Key, b: Key)
    ensures var dead := Dead(g.seen, Cutoff(g, now, minAgeSecs));
            b in At(Pruned(g, now, minAgeSecs).fwd, a) <==> b in At(g.fwd, a) && a !in dead && b !in dead
  {
    var dead := Dead(g.seen, Cutoff(g, now, minAgeSecs));
    if dead != {} {
      CutIs(g.fwd, dead, a, b);
    }
  }

  // ---------------------------------------------------------------------------------------------
  // Runs

  datatype Op = Link(alias: Key, target: Key, now: int) | Prune(now: int, minAgeSecs: nat)

  function Apply(op: Op, g: Graph): Graph {
    match op
    case Link(a, b, now) => Linked(g, a, b, now)
    case Prune(now, minAgeSecs) => Pruned(g, now, minAgeSecs)
  }

  ghost predicate IsRun(gs: seq<Graph>, ops: seq<Op>) {
    |gs| == |ops| + 1 && forall i :: 0 <= i < |ops| ==> gs[i + 1] == Apply(ops[i], gs[i])
  }

  /** After any run of links and prunes on an empty graph the two sides are converse and the counter is the
      number of pairs, within the cap. */
  lemma {:induction false} RunIsValid(gs: seq<Graph>, ops: seq<Op>, n: nat)
    requires IsRun(gs, ops) && gs[0].fwd == map[] && gs[0].rev == map[] && gs[0].edges == 0 && n <= |ops|
    ensures Valid(gs[n])
  {
    if n == 0 {
      assert Pairs(gs[0].fwd) == {};
    } else {
      RunIsValid(gs, ops, n - 1);
      hide Valid, Linked, Pruned;
      match ops[n - 1]
      case Link(a, b, now) => LinkKeeps(gs[n - 1], a, b, now);
      case Prune(now, minAgeSecs) => PruneKeeps(gs[n - 1], now, minAgeSecs);
    }
  }

  // ---------------------------------------------------------------------------------------------
  // Closure

  /** A chain of links. */
  predicate Path(m: Links, p: seq<Key>) {
    |p| > 0 && forall i :: 0 <= i < |p| - 1 ==> p[i + 1] in At(m, p[i])
  }

  ghost predicate Reaches(m: Links, a: Key, b: Key) {
    exists p :: Path(m, p) && p[0] == a && p[|p| - 1] == b
  }

  lemma ReachesItself(m: Links, a: Key)
    ensures Reaches(m, a, a)
  {
    assert Path(m, [a]);
  }

  lemma ReachesNext(m: Links, a: Key, b: Key, c: Key)
    requires Reaches(m, a, b) && c in At(m, b)
    ensures Reaches(m, a, c)
  {
    var p :| Path(m, p) && p[0] == a && p[|p| - 1] == b;
    var q := p + [c];
    forall i | 0 <= i < |q| - 1 ensures q[i + 1] in At(m, q[i]) {
      assert i < |p| - 1 ==> q[i + 1] == p[i + 1];
    }
    assert Path(m, q);
  }

  /** A set that contains the start and the targets of all its members contains whatever is reachable. */
  lemma {:induction false} ClosedHolds(m: Links, s: set<Key>, p: seq<Key>, i: nat)
    requires Path(m, p) && p[0] in s && i < |p| && forall k :: k in s ==> At(m, k) <= s
    ensures p[i] in s
  {
    if i > 0 {
      ClosedHolds(m, s, p, i - 1);
      assert p[i - 1 + 1] in At(m, p[i - 1]);
    }
  }

  lemma ClosedIsComplete(m: Links, s: set<Key>, a: Key, b: Key)
    requires a in s && (forall k :: k in s ==> At(m, k) <= s) && Reaches(m, a, b)
    ensures b in s
  {
    var p :| Path(m, p) && p[0] == a && p[|p| - 1] == b;
    ClosedHolds(m, s, p, |p| - 1);
  }

  /** Every key a walk from `key` can meet. */
  function Universe(m: Links, key: Key): set<Key> {
    {key} + set a, b | a in m && b in m[a] :: b
  }

  /** The keys known and those of them still to be expanded, in order. */
  datatype Frontier = Frontier(known: set<Key>, queue: seq<Key>)

  /** The first `n` of `targets` have been met. */
  function Met(targets: seq<Key>, n: nat, f: Frontier): Frontier
    requires n <= |targets|
  {
    if n == 0 then f
    else
      var g, x := Met(targets, n - 1, f), targets[n - 1];
      if x in g.known then g else Frontier(g.known + {x}, g.queue + [x])
  }

  /** Expands the front of the queue. */
  function Expanded(m: Links, f: Frontier): Frontier
    requires f.queue != []
  {
    var targets := InOrder(At(m, f.queue[0]));
    Met(targets, |targets|, Frontier(f.known, f.queue[1..]))
  }

  /** The breadth-first walk from `key` after `k` expansions, as far as there is anything to expand. */
  function Walk(m: Links, key: Key, k: nat): Frontier {
    if k == 0 then Frontier({key}, [key])
    else
      var f := Walk(m, key, k - 1);
      if f.queue == [] then f else Expanded(m, f)
  }

  predicate Stops(m: Links, key: Key, max: nat, k: nat) {
    Walk(m, key, k).queue == [] || |Walk(m, key, k).known| >= max
  }

  /** The walk does not stop before stage `k`. */
  ghost predicate RunsTo(m: Links, key: Key, max: nat, k: nat) {
    forall j: nat :: j < k ==> !Stops(m, key, max, j)
  }

  /** How many of at most `n` expansions are made before enough is known or nothing is left. */
  function Stage(m: Links, key: Key, max: nat, n: nat): (k: nat)
    ensures k <= n
  {
    if n == 0 then 0
    else
      var k := Stage(m, key, max, n - 1);
      if Stops(m, key, max, k) then k else k + 1
  }

  function LastStage(m: Links, key: Key, max: nat): nat {
    Stage(m, key, max, |Universe(m, key)|)
  }

  /** `closure`, as a set. */
  function ClosureOf(m: Links, key: Key, max: nat): set<Key> {
    Walk(m, key, LastStage(m, key, max)).known
  }

  /** The keys expanded by the first `k` expansions. */
  function Done(m: Links, key: Key, k: nat): set<Key> {
    if k == 0 then {}
    else
      var f := Walk(m, key, k - 1);
      if f.queue == [] then Done(m, key, k - 1) else Done(m, key, k - 1) + {f.queue[0]}
  }

  /** `known` splits into the keys already expanded and those still queued. */
  ghost predicate Walking(m: Links, key: Key, f: Frontier, done: set<Key>) {
    && key in f.known && f.known <= Universe(m, key) && done <= f.known
    && (forall i :: 0 <= i < |f.queue| ==> f.queue[i] in f.known && f.queue[i] !in done)
    && (forall i, j :: 0 <= i < j < |f.queue| ==> f.queue[i] != f.queue[j])
    && (forall x :: x in f.known && x !in done ==> exists i :: 0 <= i < |f.queue| && f.queue[i] == x)
    && (forall x :: x in f.known ==> Reaches(m, key, x))
  }

  lemma Enqueue(m: Links, key: Key, f: Frontier, done: set<Key>, cur: Key, next: Key)
    requires Walking(m, key, f, done) && cur in f.known && next in At(m, cur) && next !in f.known
    ensures Walking(m, key, Frontier(f.known + {next}, f.queue + [next]), done)
  {
    ReachesNext(m, key, cur, next);
    hide Reaches;
    var q := f.queue + [next];
    assert q[|f.queue|] == next;
    forall x | x in f.known + {next} && x !in done ensures exists i :: 0 <= i < |q| && q[i] == x {
      if x != next {
        var i :| 0 <= i < |f.queue| && f.queue[i] == x;
        assert q[i] == x;
      }
    }
  }

  lemma Dequeue(m: Links, key: Key, f: Frontier, done: set<Key>)
    requires Walking(m, key, f, done) && f.queue != []
    ensures Walking(m, key, Frontier(f.known, f.queue[1..]), done + {f.queue[0]})
  {
    hide Reaches;
    var q := f.queue[1..];
    forall x | x in f.known && x !in done + {f.queue[0]} ensures exists i :: 0 <= i < |q| && q[i] == x {
      var i :| 0 <= i < |f.queue| && f.queue[i] == x;
      assert q[i - 1] == x;
    }
  }

  lemma Started(m: Links, key: Key)
    ensures Walking(m, key, Frontier({key}, [key]), {})
  {
    ReachesItself(m, key);
    assert [key][0] == key;
  }

  lemma Known(m: Links, key: Key, f: Frontier, done: set<Key>)
    requires Walking(m, key, f, done)
    ensures key in f.known && done <= f.known <= Universe(m, key) && (f.queue == [] ==> f.known == done)
    ensures f.queue != [] ==> f.queue[0] in f.known && f.queue[0] !in done
    ensures forall x :: x in f.known ==> Reaches(m, key, x)
  {
    hide Reaches, Universe;
  }

  lemma {:induction false} MetIs(m: Links, key: Key, targets: seq<Key>, n: nat, f: Frontier, done: set<Key>, cur: Key)
    requires n <= |targets| && Walking(m, key, f, done) && cur in f.known
    requires forall i :: 0 <= i < |targets| ==> targets[i] in At(m, cur)
    ensures Walking(m, key, Met(targets, n, f), done) && f.known <= Met(targets, n, f).known
    ensures forall x :: x in Met(targets, n, f).known <==> x in f.known || exists i :: 0 <= i < n && targets[i] == x
  {
    if n > 0 {
      MetIs(m, key, targets, n - 1, f, done, cur);
      var g, x := Met(targets, n - 1, f), targets[n - 1];
      hide Walking, Met, At;
      if x !in g.known {
        Enqueue(m, key, g, done, cur, x);
      }
    }
  }

  /** An expansion makes known exactly the targets of the key it expands. */
  lemma ExpandedIs(m: Links, key: Key, f: Frontier, done: set<Key>)
    requires Walking(m, key, f, done) && f.queue != []
    ensures Walking(m, key, Expanded(m, f), done + {f.queue[0]})
    ensures Expanded(m, f).known == f.known + At(m, f.queue[0])
  {
    var cur, targets := f.queue[0], InOrder(At(m, f.queue[0]));
    InOrderLists(At(m, cur));
    Known(m, key, f, done);
    Dequeue(m, key, f, done);
    MetIs(m, key, targets, |targets|, Frontier(f.known, f.queue[1..]), done + {cur}, cur);
    hide Walking, Met, InOrder;
    forall x | x in At(m, cur) ensures exists i :: 0 <= i < |targets| && targets[i] == x {
      var i := Position(At(m, cur), x);
    }
  }

  ghost predicate WalksWell(m: Links, key: Key, f: Frontier, done: set<Key>, k: nat) {
    && Walking(m, key, f, done) && (forall x :: x in done ==> At(m, x) <= f.known)
    && (f.queue != [] ==> |done| == k)
  }

  lemma ExpandsWell(m: Links, key: Key, f: Frontier, done: set<Key>, k: nat)
    requires WalksWell(m, key, f, done, k) && f.queue != []
    ensures WalksWell(m, key, Expanded(m, f), done + {f.queue[0]}, k + 1)
  {
    Known(m, key, f, done);
    ExpandedIs(m, key, f, done);
    hide Walking, Expanded, At;
    assert |done + {f.queue[0]}| == |done| + 1;
  }

  lemma {:induction false} WalkIs(m: Links, key: Key, k: nat)
    ensures WalksWell(m, key, Walk(m, key, k), Done(m, key, k), k)
  {
    if k == 0 {
      Started(m, key);
    } else {
      WalkIs(m, key, k - 1);
      var f, done := Walk(m, key, k - 1), Done(m, key, k - 1);
      if f.queue != [] {
        ExpandsWell(m, key, f, done, k - 1);
      } else {
        hide Walking, At;
      }
    }
  }

  /** The walk stops before it has expanded more keys than there are. */
  lemma {:induction false} StageStops(m: Links, key: Key, max: nat, n: nat)
    ensures var k := Stage(m, key, max, n);
            && (k < n ==> Stops(m, key, max, k)) && RunsTo(m, key, max, k)
  {
    if n > 0 {
      StageStops(m, key, max, n - 1);
    }
  }

  lemma LastStageStops(m: Links, key: Key, max: nat)
    ensures var k := LastStage(m, key, max);
            Stops(m, key, max, k) && RunsTo(m, key, max, k)
  {
    var n := |Universe(m, key)|;
    var k, done := LastStage(m, key, max), Done(m, key, LastStage(m, key, max));
    StageStops(m, key, max, n);
    WalkIs(m, key, k);
    var f := Walk(m, key, k);
    Known(m, key, f, done);
    hide Walk, Walking, Universe, Done, Stage;
    if k == n && f.queue != [] {
      Smaller(done + {f.queue[0]}, Universe(m, key));
    }
  }

  lemma StopsOnce(m: Links, key: Key, max: nat, k: nat)
    requires Stops(m, key, max, k) && RunsTo(m, key, max, k)
    ensures LastStage(m, key, max) == k
  {
    LastStageStops(m, key, max);
    hide Stops, LastStage;
    var l := LastStage(m, key, max);
    assert !(k < l) && !(l < k);
  }

  /** Only reachable keys are returned, and all of them if fewer than `max` came up. */
  lemma ClosureIsSound(m: Links, key: Key, max: nat)
    ensures key in ClosureOf(m, key, max) && forall x :: x in ClosureOf(m, key, max) ==> Reaches(m, key, x)
    ensures |ClosureOf(m, key, max)| < max ==>
              forall x :: x in ClosureOf(m, key, max) <==> Reaches(m, key, x)
  {
    var k, known := LastStage(m, key, max), ClosureOf(m, key, max);
    LastStageStops(m, key, max);
    WalkIs(m, key, k);
    Known(m, key, Walk(m, key, k), Done(m, key, k));
    hide Walk, Walking, Done, Reaches, LastStage;
    if |known| < max {
      forall x | Reaches(m, key, x) ensures x in known {
        ClosedIsComplete(m, known, key, x);
      }
    }
  }

  /** At stage `k` the key in front has more unknown targets than `max` leaves room for. */
  predicate Overruns(m: Links, key: Key, max: nat, k: nat) {
    var f := Walk(m, key, k);
    f.queue != [] && |f.known| < max && |At(m, f.queue[0]) - f.known| > max - |f.known|
  }

  lemma Unknown<T>(a: set<T>, b: set<T>)
    ensures |a + b| == |a| + |b - a| && |b - a| <= |b|
  {
    assert a + b == a + (b - a);
    Smaller(b - a, b);
  }

  /** One expansion adds exactly the unknown targets of the key in front. */
  lemma StageGrows(m: Links, key: Key, k: nat)
    requires Walk(m, key, k).queue != []
    ensures var f := Walk(m, key, k);
            && |Walk(m, key, k + 1).known| == |f.known| + |At(m, f.queue[0]) - f.known|
            && f.queue[0] in f.known && Reaches(m, key, f.queue[0]) && f.known <= Walk(m, key, k + 1).known
  {
    var f, done := Walk(m, key, k), Done(m, key, k);
    WalkIs(m, key, k);
    Known(m, key, f, done);
    ExpandedIs(m, key, f, done);
    Unknown(f.known, At(m, f.queue[0]));
  }

  /** The closure exceeds its limit exactly if the limit is zero or some key, when its turn comes with the
      limit not yet reached, has more unknown targets than there is room for. The excess is less than
      the out-degree of that key, which is in the closure. */
  lemma ClosureOverrun(m: Links, key: Key, max: nat)
    ensures |ClosureOf(m, key, max)| > max <==> max == 0 || exists k :: Overruns(m, key, max, k)
    ensures |ClosureOf(m, key, max)| > max > 0 ==>
              exists x :: x in ClosureOf(m, key, max) && |ClosureOf(m, key, max)| < max + |At(m, x)|
  {
    var k := LastStage(m, key, max);
    assert Walk(m, key, 0).known == {key};
    hide Walk, Reaches, LastStage, Overruns, Stops, At;
    ClosureIsSound(m, key, max);
    Smaller({key}, ClosureOf(m, key, max));
    LastStageStops(m, key, max);
    if j :| Overruns(m, key, max, j) {
      OverrunIsLast(m, key, max, j);
    }
    if k > 0 {
      LastExpansion(m, key, max, k - 1);
    }
  }

  lemma LastExpansion(m: Links, key: Key, max: nat, k: nat)
    requires !Stops(m, key, max, k)
    ensures |Walk(m, key, k + 1).known| > max ==> Overruns(m, key, max, k)
    ensures var f := Walk(m, key, k);
            && f.queue != [] && f.queue[0] in Walk(m, key, k + 1).known
            && |Walk(m, key, k + 1).known| < max + |At(m, f.queue[0])|
  {
    StageGrows(m, key, k);
    var f := Walk(m, key, k);
    Unknown(f.known, At(m, f.queue[0]));
    hide Walk, Reaches, At;
  }

  lemma {:induction false} KnownGrows(m: Links, key: Key, i: nat, j: nat)
    requires i <= j
    ensures |Walk(m, key, i).known| <= |Walk(m, key, j).known|
    ensures Walk(m, key, j).queue != [] ==> Walk(m, key, i).queue != []
    decreases j
  {
    if i < j {
      KnownGrows(m, key, i, j - 1);
      if Walk(m, key, j - 1).queue != [] {
        StageGrows(m, key, j - 1);
      }
    }
  }

  lemma OverrunIsLast(m: Links, key: Key, max: nat, j: nat)
    requires Overruns(m, key, max, j)
    ensures LastStage(m, key, max) == j + 1 && |ClosureOf(m, key, max)| > max
  {
    StageGrows(m, key, j);
    forall i: nat | i < j + 1 ensures !Stops(m, key, max, i) {
      KnownGrows(m, key, i, j);
    }
    StopsOnce(m, key, max, j + 1);
  }

  /** So a closure stays within a positive limit where every reachable key has at most one target. */
  lemma ChainsStayWithin(m: Links, key: Key, max: nat)
    requires max > 0 && forall x :: Reaches(m, key, x) ==> |At(m, x)| <= 1
    ensures |ClosureOf(m, key, max)| <= max
  {
    ClosureOverrun(m, key, max);
    forall k ensures !Overruns(m, key, max, k) {
      var f := Walk(m, key, k);
      if f.queue != [] {
        StageGrows(m, key, k);
        Unknown(f.known, At(m, f.queue[0]));
      }
    }
  }

  /** A key with three targets and a limit of two: four keys are returned. */
  lemma ThreeTargets()
    ensures |ClosureOf(map[0 := {1, 2, 3}], 0, 2)| == 4
  {
    var m: Links := map[0 := {1, 2, 3}];
    var f := Walk(m, 0, 0);
    assert f == Frontier({0}, [0]) && At(m, 0) - {0} == {1, 2, 3};
    assert |{1, 2, 3}| == 3;
    StageGrows(m, 0, 0);
    assert Overruns(m, 0, 2, 0);
    OverrunIsLast(m, 0, 2, 0);
  }

  class AliasGraph {
    const maxEdges: nat
    const pruneAgeSecs: nat
    var fwd: Links
    var rev: Links
    var seen: map<Key, int>
    var edges: nat

    function Value(): Graph
      reads this
    {
      Graph(maxEdges, pruneAgeSecs, fwd, rev, seen, edges)
    }

    constructor (maxEdges: nat, pruneAgeSecs: nat)
      ensures this.maxEdges == maxEdges && this.pruneAgeSecs == pruneAgeSecs
      ensures Value() == Graph(maxEdges, pruneAgeSecs, map[], map[], map[], 0)
    {
      this.maxEdges, this.pruneAgeSecs := maxEdges, pruneAgeSecs;
      fwd, rev, seen, edges := map[], map[], map[], 0;
    }

    method Link(a: Key, b: Key, now: int)
      modifies this
      ensures Value() == Linked(old(Value()), a, b, now)
    {
      seen := seen[a := now];
      seen := seen[b := now];
      if a in fwd && b in fwd[a] {
        return;
      }
      if edges >= maxEdges {
        return;
      }
      fwd := fwd[a := (if a in fwd then fwd[a] else {}) + {b}];
      rev := rev[b := (if b in rev then rev[b] else {}) + {a}];
      edges := edges + 1;
    }

    method Prune(now: int, minAgeSecs: nat)
      modifies this
      ensures Value() == Pruned(old(Value()), now, minAgeSecs)
    {
      hide Cut, EdgeCount;
      var age := if minAgeSecs == 0 then pruneAgeSecs else minAgeSecs;
      var dead := Dead(seen, now - age * NS_PER_SEC);
      if dead == {} {
        return;
      }
      seen := seen - dead;
      fwd := Retain(fwd, dead);
      rev := Retain(rev, dead);
      edges := Recount(fwd);
    }

    /** Every entry reachable from `key`, itself included, until `max` keys are known. */
    method Closure(key: Key, max: nat) returns (keys: seq<Key>)
      ensures keys == InOrder(ClosureOf(fwd, key, max))
    {
      var queue, known := [key], {key};
      ghost var k := 0;
      StageBound(fwd, key, 0);
      assert Walk(fwd, key, 0) == Frontier(known, queue);
      assert RunsTo(fwd, key, max, 0);
      hide Walk, RunsTo, Met, Universe, InOrder, ClosureOf;
      while queue != []
        invariant k <= |Universe(fwd, key)| + 1
        invariant Frontier(known, queue) == Walk(fwd, key, k) && RunsTo(fwd, key, max, k)
        decreases |Universe(fwd, key)| + 1 - k
      {
        StageBound(fwd, key, k);
        if |known| >= max {
          break;
        }
        var cur := queue[0];
        NextStage(fwd, key, max, k);
        known, queue := Expand(cur, known, queue[1..]);
        k := k + 1;
      }
      StopsHere(fwd, key, max, k);
      keys := InOrder(known);
    }

    /** Adds the unknown targets of `cur`. */
    method Expand(cur: Key, known: set<Key>, queue: seq<Key>) returns (known': set<Key>, queue': seq<Key>)
      ensures var targets := InOrder(At(fwd, cur));
              Frontier(known', queue') == Met(targets, |targets|, Frontier(known, queue))
    {
      known', queue' := known, queue;
      var targets := InOrder(if cur in fwd then fwd[cur] else {});
      for i := 0 to |targets|
        invariant Frontier(known', queue') == Met(targets, i, Frontier(known, queue))
      {
        if targets[i] !in known' {
          known', queue' := known' + {targets[i]}, queue' + [targets[i]];
        }
      }
    }
  }

  lemma NextStage(m: Links, key: Key, max: nat, k: nat)
    requires Walk(m, key, k).queue != [] && |Walk(m, key, k).known| < max && RunsTo(m, key, max, k)
    ensures RunsTo(m, key, max, k + 1)
    ensures var f, targets := Walk(m, key, k), InOrder(At(m, Walk(m, key, k).queue[0]));
            Walk(m, key, k + 1) == Met(targets, |targets|, Frontier(f.known, f.queue[1..]))
  {
    hide Met, InOrder, At;
  }

  lemma StopsHere(m: Links, key: Key, max: nat, k: nat)
    requires (Walk(m, key, k).queue == [] || |Walk(m, key, k).known| >= max) && RunsTo(m, key, max, k)
    ensures ClosureOf(m, key, max) == Walk(m, key, k).known
  {
    hide Walk, LastStage;
    StopsOnce(m, key, max, k);
  }

  lemma StageBound(m: Links, key: Key, k: nat)
    ensures Walk(m, key, k).queue != [] ==> k < |Universe(m, key)|
  {
    var f, done := Walk(m, key, k), Done(m, key, k);
    WalkIs(m, key, k);
    Known(m, key, f, done);
    hide Walk, Walking, Universe, Done;
    if f.queue != [] {
      Smaller(done + {f.queue[0]}, Universe(m, key));
    }
  }

  method Retain(m: Links, dead: set<Key>) returns (kept: Links)
    ensures kept == Cut(m, dead)
  {
    var keys := InOrder(m.Keys);
    InOrderLists(m.Keys);
    kept := m;
    for i := 0 to |keys|
      invariant forall k :: k in kept ==> k in m
      invariant forall j :: 0 <= j < i ==>
                  (keys[j] in kept <==> keys[j] !in dead && m[keys[j]] - dead != {})
                  && (keys[j] in kept ==> kept[keys[j]] == m[keys[j]] - dead)
      invariant forall j :: i <= j < |keys| ==> keys[j] in kept && kept[keys[j]] == m[keys[j]]
    {
      var k := keys[i];
      if k in dead || m[k] - dead == {} {
        kept := kept - {k};
      } else {
        kept := kept[k := m[k] - dead];
      }
    }
    forall k | k in m ensures (k in kept <==> k in Cut(m, dead)) && (k in kept ==> kept[k] == m[k] - dead) {
      var j := Position(m.Keys, k);
    }
  }

  method Recount(m: Links) returns (n: nat)
    ensures n == EdgeCount(m)
  {
    var keys := InOrder(m.Keys);
    n := 0;
    InOrderLists(m.Keys);
    for i := 0 to |keys|
      invariant n == Total(m, keys, i)
    {
      n := n + |m[keys[i]]|;
    }
  }
}
