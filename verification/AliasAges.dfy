/** How long an alias edge lives: by the times its keys took part in a resolution, over whole runs of links and
    prunes (src/alias.rs). */
module AliasAges {
  import opened Alias

  /** Step `i` links the key to something, from either end. */
  predicate Mentions(ops: seq<Op>, i: nat, key: Key)
    requires i < |ops|
  {
    ops[i].Link? && (ops[i].alias == key || ops[i].target == key)
  }

  ghost predicate TimesInOrder(ops: seq<Op>) {
    forall i, j :: 0 <= i < j < |ops| && ops[i].Link? && ops[j].Link? ==> ops[i].now <= ops[j].now
  }

  /** One of the first `n` steps mentions the key at `since` or later. */
  ghost predicate SeenSince(ops: seq<Op>, n: nat, key: Key, since: int)
    requires n <= |ops|
  {
    exists i :: 0 <= i < n && Mentions(ops, i, key) && ops[i].now >= since
  }

  /** `at` is the latest time at which one of the first `n` steps mentions the key. */
  ghost predicate LastSeen(ops: seq<Op>, n: nat, key: Key, at: int)
    requires n <= |ops|
  {
    && (exists i :: 0 <= i < n && Mentions(ops, i, key) && ops[i].now == at)
    && (forall i :: 0 <= i < n && Mentions(ops, i, key) ==> ops[i].now <= at)
  }

  ghost predicate AllLastSeen(seen: map<Key, int>, ops: seq<Op>, n: nat)
    requires n <= |ops|
  {
    forall k :: k in seen ==> LastSeen(ops, n, k, seen[k])
  }

  /** Both ends of every edge are in `seen`. */
  ghost predicate EndsAreSeen(g: Graph) {
    forall a, b :: b in At(g.fwd, a) ==> a in g.seen && b in g.seen
  }

  lemma LinkSees(g: Graph, ops: seq<Op>, n: nat, k: Key)
    requires n < |ops| && ops[n].Link? && TimesInOrder(ops) && AllLastSeen(g.seen, ops, n)
    requires k in Linked(g, ops[n].alias, ops[n].target, ops[n].now).seen
    ensures LastSeen(ops, n + 1, k, Linked(g, ops[n].alias, ops[n].target, ops[n].now).seen[k])
  {
    hide With;
    if Mentions(ops, n, k) {
      assert Linked(g, ops[n].alias, ops[n].target, ops[n].now).seen[k] == ops[n].now;
    } else {
      assert k in g.seen && LastSeen(ops, n, k, g.seen[k]);
    }
  }

  lemma PruneSees(g: Graph, ops: seq<Op>, n: nat, k: Key)
    requires n < |ops| && ops[n].Prune? && AllLastSeen(g.seen, ops, n)
    requires k in Pruned(g, ops[n].now, ops[n].minAgeSecs).seen
    ensures LastSeen(ops, n + 1, k, Pruned(g, ops[n].now, ops[n].minAgeSecs).seen[k])
  {
    hide EdgeCount, Cut;
    assert k in g.seen && LastSeen(ops, n, k, g.seen[k]);
    assert !Mentions(ops, n, k);
  }

  lemma EndsStaySeen(g: Graph, op: Op)
    requires EndsAreSeen(g)
    ensures EndsAreSeen(Apply(op, g))
  {
    hide EdgeCount;
    match op
    case Link(a, b, now) =>
    case Prune(now, minAgeSecs) =>
      forall a, b | b in At(Apply(op, g).fwd, a) ensures a in Apply(op, g).seen && b in Apply(op, g).seen {
        PruneRestricts(g, now, minAgeSecs, a, b);
      }
  }

  /** In every run that starts empty, a key's entry is the latest time it was linked. */
  lemma {:induction false} SeenIsLast(gs: seq<Graph>, ops: seq<Op>, n: nat)
    requires IsRun(gs, ops) && n <= |ops| && gs[0].seen == map[] && gs[0].fwd == map[] && TimesInOrder(ops)
    ensures AllLastSeen(gs[n].seen, ops, n) && EndsAreSeen(gs[n])
    ensures gs[n].pruneAgeSecs == gs[0].pruneAgeSecs
  {
    if n > 0 {
      SeenIsLast(gs, ops, n - 1);
      assert gs[n] == Apply(ops[n - 1], gs[n - 1]);
      hide Linked, Pruned, IsRun, TimesInOrder;
      EndsStaySeen(gs[n - 1], ops[n - 1]);
      forall k | k in gs[n].seen ensures LastSeen(ops, n, k, gs[n].seen[k]) {
        if ops[n - 1].Link? {
          LinkSees(gs[n - 1], ops, n - 1, k);
        } else {
          PruneSees(gs[n - 1], ops, n - 1, k);
        }
      }
    }
  }

  lemma SeenDecides(ops: seq<Op>, n: nat, key: Key, at: int, since: int)
    requires n <= |ops| && LastSeen(ops, n, key, at)
    ensures at >= since <==> SeenSince(ops, n, key, since)
  {
  }

  /** In every run that starts empty and whose times do not go back, a prune keeps an edge if and only if both
      of its ends took part in a resolution within the age it is given, or the configured one if that is zero. */
  lemma PruneKeepsTheSeen(gs: seq<Graph>, ops: seq<Op>, n: nat, a: Key, b: Key, since: int)
    requires IsRun(gs, ops) && gs[0].seen == map[] && gs[0].fwd == map[] && TimesInOrder(ops)
    requires n < |ops| && ops[n].Prune? && b in At(gs[n].fwd, a)
    requires since == ops[n].now - 1000000000 * if ops[n].minAgeSecs > 0 then ops[n].minAgeSecs else gs[0].pruneAgeSecs
    ensures b in At(gs[n + 1].fwd, a) <==> SeenSince(ops, n, a, since) && SeenSince(ops, n, b, since)
  {
    var g := gs[n];
    SeenIsLast(gs, ops, n);
    assert gs[n + 1] == Pruned(g, ops[n].now, ops[n].minAgeSecs);
    assert since == Cutoff(g, ops[n].now, ops[n].minAgeSecs);
    PruneRestricts(g, ops[n].now, ops[n].minAgeSecs, a, b);
    hide Pruned, IsRun, TimesInOrder, LastSeen, SeenSince;
    SeenDecides(ops, n, a, g.seen[a], since);
    SeenDecides(ops, n, b, g.seen[b], since);
  }
}
