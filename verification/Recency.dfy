/** How long a fake-IP mapping lives: by the times it was used, over whole runs of the allocator
    (src/fakeip.rs). */
module Recency {
  import opened Names
  import Bounded
  import opened FakeIp

  /** The operation that leads from `s` to `t` uses the mapping of `name`: it asks for it by name, looks its
      address up, or restores it and is not refused. */
  ghost predicate Uses(op: Op, s: Space, t: Space, name: Name) {
    match op
    case Allocate(n, _) => n == name
    case Lookup(key, _) => key in s.byKey && s.byKey[key].name == name
    case Restore(n, key, _) => n == name && n in t.byName && t.byName[n] == key
    case _ => false
  }

  predicate Timed(op: Op) {
    !op.Release? && !op.Clear?
  }

  function TimeOf(op: Op): int
    requires Timed(op)
  {
    match op
    case Allocate(_, now) => now
    case Lookup(_, now) => now
    case Restore(_, _, now) => now
    case Cleanup(now) => now
  }

  ghost predicate TimesInOrder(ops: seq<Op>) {
    forall i, j :: 0 <= i < j < |ops| && Timed(ops[i]) && Timed(ops[j]) ==> TimeOf(ops[i]) <= TimeOf(ops[j])
  }

  /** Asking for a name without a mapping when the space is at its cap: something must make room. */
  predicate Reclaims(op: Op, s: Space) {
    op.Allocate? && op.name !in s.byName && |s.byKey| >= s.Cap()
  }

  /** When the mapping of `name` was last used, according to its entry. */
  function StampOf(s: Space, name: Name): int
    requires name in s.byName && s.byName[name] in s.byKey
  {
    s.byKey[s.byName[name]].lastAccess
  }

  // ---------------------------------------------------------------------------------------------
  // One step

  lemma SweptStamp(s: Space, kept: map<nat, Entry>, name: Name)
    requires Valid(s) && Bounded.Within(kept, s.byKey) && name in Swept(s, kept).byName
    ensures var t := Swept(s, kept);
            name in s.byName && t.byName[name] == s.byName[name] && t.byName[name] in t.byKey
            && t.byKey[t.byName[name]] == s.byKey[s.byName[name]]
  {
    SweepKeeps(s, kept);
  }

  /** What an insertion after a scan leaves of the other mappings. */
  lemma InsertStamp(r: Space, t: Space, key: nat, n: Name, now: int, name: Name)
    requires Inverse(r.byKey, r.byName) && key !in r.byKey && n !in r.byName
    requires t.byKey == r.byKey && t.byName == r.byName && name in Inserted(t, key, n, now).byName
    ensures var u := Inserted(t, key, n, now);
            && u.byName[name] in u.byKey
            && (n == name ==> u.byKey[u.byName[name]].lastAccess == now)
            && (n != name ==> name in r.byName && u.byName[name] == r.byName[name]
                              && u.byKey[u.byName[name]] == r.byKey[r.byName[name]])
  {
  }

  lemma AllocateStamp(s: Space, n: Name, now: int, name: Name)
    requires Valid(s) && name in Allocated(s, n, now).1.byName
    ensures var t := Allocated(s, n, now).1;
            && t.byName[name] in t.byKey
            && (n == name ==> t.byKey[t.byName[name]].lastAccess == now)
            && (n != name ==> name in s.byName && t.byName[name] == s.byName[name]
                              && t.byKey[t.byName[name]] == s.byKey[s.byName[name]])
  {
    if n !in s.byName {
      var r := WithRoom(s, now);
      RoomIsMade(s, now);
      ScanFinds(r);
      ScanVisits(r, |r.byKey| + 1);
      hide WithRoom, Taken, Inserted;
      InsertStamp(r, Taken(r, |r.byKey| + 1).1, Taken(r, |r.byKey| + 1).0.value, n, now, name);
    }
  }

  /** A step either uses the mapping of a name and stamps it with its time, or leaves it as it was. */
  lemma StepStamp(op: Op, s: Space, name: Name)
    requires Valid(s) && name in Apply(op, s).byName
    ensures var t := Apply(op, s);
            && t.byName[name] in t.byKey
            && (Uses(op, s, t, name) ==> Timed(op) && StampOf(t, name) == TimeOf(op))
            && (!Uses(op, s, t, name) ==> name in s.byName && t.byName[name] == s.byName[name]
                                          && t.byKey[t.byName[name]] == s.byKey[s.byName[name]])
  {
    hide Allocated, Swept, Bounded.Fresh;
    match op
    case Allocate(n, now) => AllocateStamp(s, n, now, name);
    case Cleanup(now) =>
      assert Bounded.Within(Bounded.Fresh(s.byKey, now - s.ttl, LastAccess), s.byKey) by {
        FreshIsPart(s.byKey, now - s.ttl);
      }
      SweptStamp(s, Bounded.Fresh(s.byKey, now - s.ttl, LastAccess), name);
    case _ =>
  }

  lemma FreshIsPart(byKey: map<nat, Entry>, cut: int)
    ensures Bounded.Within(Bounded.Fresh(byKey, cut, LastAccess), byKey)
    ensures forall k :: k in byKey ==> (k in Bounded.Fresh(byKey, cut, LastAccess) <==> byKey[k].lastAccess >= cut)
  {
  }

  lemma StepKeepsRange(op: Op, s: Space)
    requires Valid(s)
    ensures var t := Apply(op, s);
            t.ttl == s.ttl && t.first == s.first && t.last == s.last && t.maxEntries == s.maxEntries
  {
    if op.Allocate? {
      var r := WithRoom(s, op.now);
      RoomIsMade(s, op.now);
      ScanVisits(r, |r.byKey| + 1);
      hide WithRoom, Taken;
    }
  }

  // ---------------------------------------------------------------------------------------------
  // Runs

  /** Step `i` of the run uses the mapping of `name`. */
  ghost predicate UsedAt(ss: seq<Space>, ops: seq<Op>, i: nat, name: Name)
    requires i < |ops| < |ss|
  {
    Uses(ops[i], ss[i], ss[i + 1], name)
  }

  /** `stamp` is the latest time at which one of the first `n` steps used the mapping of `name`. */
  ghost predicate LastUsed(ss: seq<Space>, ops: seq<Op>, n: nat, name: Name, stamp: int)
    requires n <= |ops| < |ss|
  {
    && (exists i :: 0 <= i < n && UsedAt(ss, ops, i, name) && Timed(ops[i]) && TimeOf(ops[i]) == stamp)
    && (forall i :: 0 <= i < n && UsedAt(ss, ops, i, name) ==> Timed(ops[i]) && TimeOf(ops[i]) <= stamp)
  }

  lemma UseIsLast(ss: seq<Space>, ops: seq<Op>, n: nat, name: Name)
    requires n < |ops| < |ss| && TimesInOrder(ops) && UsedAt(ss, ops, n, name)
    ensures Timed(ops[n]) && LastUsed(ss, ops, n + 1, name, TimeOf(ops[n]))
  {
    assert Timed(ops[n]);
    forall i | 0 <= i < n + 1 && UsedAt(ss, ops, i, name) ensures Timed(ops[i]) && TimeOf(ops[i]) <= TimeOf(ops[n]) {
      assert Timed(ops[i]);
    }
  }

  /** The stamp of a mapping is the latest time it was used at. */
  lemma {:induction false} StampIsLastUse(ss: seq<Space>, ops: seq<Op>, n: nat, name: Name)
    requires IsRun(ss, ops) && Valid(ss[0]) && ss[0].byName == map[] && TimesInOrder(ops)
    requires n <= |ops| && name in ss[n].byName
    ensures ss[n].byName[name] in ss[n].byKey && LastUsed(ss, ops, n, name, StampOf(ss[n], name))
  {
    if n > 0 {
      var op := ops[n - 1];
      RunIsValid(ss, ops, n - 1);
      assert ss[n] == Apply(op, ss[n - 1]);
      StepStamp(op, ss[n - 1], name);
      hide Apply, Valid, TimeOf, TimesInOrder, LastUsed;
      if UsedAt(ss, ops, n - 1, name) {
        hide Uses;
        UseIsLast(ss, ops, n - 1, name);
      } else {
        StampIsLastUse(ss, ops, n - 1, name);
        NoLaterUse(ss, ops, n - 1, name, StampOf(ss[n], name));
      }
    }
  }

  lemma NoLaterUse(ss: seq<Space>, ops: seq<Op>, n: nat, name: Name, stamp: int)
    requires n < |ops| < |ss| && LastUsed(ss, ops, n, name, stamp) && !UsedAt(ss, ops, n, name)
    ensures LastUsed(ss, ops, n + 1, name, stamp)
  {
  }

  lemma {:induction false} RunKeepsRange(ss: seq<Space>, ops: seq<Op>, n: nat)
    requires IsRun(ss, ops) && Valid(ss[0]) && n <= |ops|
    ensures ss[n].ttl == ss[0].ttl
  {
    if n > 0 {
      RunKeepsRange(ss, ops, n - 1);
      RunIsValid(ss, ops, n - 1);
      StepKeepsRange(ops[n - 1], ss[n - 1]);
    }
  }

  lemma InverseOfPart(kept: map<nat, Entry>, names: map<Name, nat>, s: Space, name: Name)
    requires Inverse(s.byKey, s.byName) && Bounded.Within(kept, s.byKey) && Inverse(kept, names) && name in s.byName
    ensures name in names <==> s.byName[name] in kept
  {
    if s.byName[name] in kept {
      assert kept[s.byName[name]].name == name;
    }
  }

  lemma {:induction false} CleanupDecides(s: Space, now: int, name: Name)
    requires Valid(s) && name in s.byName
    ensures s.byName[name] in s.byKey
    ensures name in CleanedUp(s, now).byName <==> StampOf(s, name) >= now - s.ttl
  {
    var kept := Bounded.Fresh(s.byKey, now - s.ttl, LastAccess);
    assert CleanedUp(s, now) == Swept(s, kept);
    assert Inverse(s.byKey, s.byName) && s.byName[name] in s.byKey;
    hide *;
    FreshIsPart(s.byKey, now - s.ttl);
    SweptIs(s, kept);
    InverseOfPart(kept, Swept(s, kept).byName, s, name);
    StampIs(s, name);
  }

  lemma StampIs(s: Space, name: Name)
    requires name in s.byName && s.byName[name] in s.byKey
    ensures StampOf(s, name) == s.byKey[s.byName[name]].lastAccess
  {
  }

  lemma SweptIs(s: Space, kept: map<nat, Entry>)
    requires Valid(s) && Bounded.Within(kept, s.byKey)
    ensures Swept(s, kept).byKey == kept && Inverse(kept, Swept(s, kept).byName)
  {
    SweepKeeps(s, kept);
  }

  /** In every run from an empty space whose times do not go back, a cleanup keeps a mapping if and only if
      it was used within the time to live before it. */
  lemma CleanupKeepsTheUsed(ss: seq<Space>, ops: seq<Op>, n: nat, name: Name)
    requires IsRun(ss, ops) && Valid(ss[0]) && ss[0].byName == map[] && TimesInOrder(ops)
    requires n < |ops| && ops[n].Cleanup? && name in ss[n].byName
    ensures name in ss[n + 1].byName <==>
            exists i :: 0 <= i < n && UsedAt(ss, ops, i, name)
                        && Timed(ops[i]) && TimeOf(ops[i]) >= ops[n].now - ss[0].ttl
  {
    RunIsValid(ss, ops, n);
    RunKeepsRange(ss, ops, n);
    StampIsLastUse(ss, ops, n, name);
    CleanupDecides(ss[n], ops[n].now, name);
    assert ss[n + 1] == Apply(ops[n], ss[n]);
    hide CleanedUp, Valid, UsedAt, TimesInOrder;
  }

  // ---------------------------------------------------------------------------------------------
  // What does not end a mapping

  /** No step of `ops[i..j]` ends a mapping of `name` stamped `at`: none releases it, clears the space or
      makes room in a full one, and every cleanup comes within the time to live. */
  ghost predicate Undisturbed(ss: seq<Space>, ops: seq<Op>, i: nat, j: nat, name: Name, at: int)
    requires i <= j <= |ops| < |ss|
  {
    forall k :: i <= k < j ==>
      && !ops[k].Clear? && !(ops[k].Release? && ops[k].name == name) && !Reclaims(ops[k], ss[k])
      && (ops[k].Cleanup? ==> ops[k].now <= at + ss[k].ttl)
  }

  lemma AllocateStays(s: Space, n: Name, now: int, name: Name)
    requires Valid(s) && name in s.byName && !Reclaims(Allocate(n, now), s)
    ensures name in Allocated(s, n, now).1.byName
  {
    if n !in s.byName {
      ScanVisits(s, |s.byKey| + 1);
      hide Taken;
    }
  }

  /** A step that makes no room ends a mapping if and only if it clears the space, releases the name, or is
      a cleanup more than the time to live after the mapping was last used. */
  lemma EndsWhen(op: Op, s: Space, name: Name)
    requires Valid(s) && name in s.byName && !Reclaims(op, s)
    ensures s.byName[name] in s.byKey
    ensures name !in Apply(op, s).byName <==>
            op.Clear? || (op.Release? && op.name == name) || (op.Cleanup? && StampOf(s, name) < op.now - s.ttl)
  {
    hide Allocated, CleanedUp;
    match op
    case Allocate(n, now) => AllocateStays(s, n, now, name);
    case Cleanup(now) => CleanupDecides(s, now, name);
    case _ =>
  }

  /** `name` is mapped to `key` with a stamp of at least `at`. */
  ghost predicate Holds(s: Space, name: Name, key: nat, at: int) {
    name in s.byName && s.byName[name] == key && key in s.byKey && s.byKey[key].lastAccess >= at
  }

  lemma StepHolds(op: Op, s: Space, t: Space, name: Name, key: nat, at: int)
    requires Valid(s) && t == Apply(op, s) && Holds(s, name, key, at)
    requires !op.Clear? && !(op.Release? && op.name == name) && !Reclaims(op, s)
    requires op.Cleanup? ==> op.now <= at + s.ttl
    requires Timed(op) ==> TimeOf(op) >= at
    ensures Holds(t, name, key, at)
  {
    EndsWhen(op, s, name);
    StepStamp(op, s, name);
    StepKeeps(op, s);
    hide Apply, Valid, Uses, Reclaims;
  }

  /** A mapping used at step `i` keeps its address for as long as nothing ends it, whatever else happens. */
  lemma {:induction false} UsedMappingStays(ss: seq<Space>, ops: seq<Op>, i: nat, j: nat, name: Name, key: nat)
    requires IsRun(ss, ops) && Valid(ss[0]) && TimesInOrder(ops) && i < j <= |ops|
    requires UsedAt(ss, ops, i, name) && Timed(ops[i]) && name in ss[i + 1].byName && ss[i + 1].byName[name] == key
    requires Undisturbed(ss, ops, i + 1, j, name, TimeOf(ops[i]))
    ensures Holds(ss[j], name, key, TimeOf(ops[i]))
    decreases j
  {
    hide *;
    RunStep(ss, ops, j - 1);
    if j == i + 1 {
      UseStamps(ss, ops, i, name);
      HoldsNow(ss[j], name, key, TimeOf(ops[i]));
    } else {
      UndisturbedUpTo(ss, ops, i + 1, j - 1, name, TimeOf(ops[i]));
      UsedMappingStays(ss, ops, i, j - 1, name, key);
      OrderedUse(ops, i, j - 1);
      StepHolds(ops[j - 1], ss[j - 1], ss[j], name, key, TimeOf(ops[i]));
    }
  }

  lemma HoldsNow(s: Space, name: Name, key: nat, at: int)
    requires name in s.byName && s.byName[name] == key && key in s.byKey && StampOf(s, name) == at
    ensures Holds(s, name, key, at)
  {
  }

  lemma RunStep(ss: seq<Space>, ops: seq<Op>, n: nat)
    requires IsRun(ss, ops) && Valid(ss[0]) && n < |ops|
    ensures |ss| == |ops| + 1 && Valid(ss[n]) && ss[n + 1] == Apply(ops[n], ss[n])
  {
    RunIsValid(ss, ops, n);
    hide Apply, Valid;
  }

  /** Whatever is used is mapped afterwards. */
  lemma UsedIsMapped(ss: seq<Space>, ops: seq<Op>, n: nat, name: Name)
    requires IsRun(ss, ops) && Valid(ss[0]) && n < |ops| && UsedAt(ss, ops, n, name)
    ensures name in ss[n + 1].byName
  {
    RunStep(ss, ops, n);
    if ops[n].Allocate? {
      AllocateIsSafe(ss[n], name, ops[n].now);
    }
    hide Allocated;
  }

  lemma UseStamps(ss: seq<Space>, ops: seq<Op>, n: nat, name: Name)
    requires IsRun(ss, ops) && Valid(ss[0]) && n < |ops| && UsedAt(ss, ops, n, name) && name in ss[n + 1].byName
    ensures ss[n + 1].byName[name] in ss[n + 1].byKey && Timed(ops[n]) && StampOf(ss[n + 1], name) == TimeOf(ops[n])
  {
    RunStep(ss, ops, n);
    hide Apply, Valid, Uses, TimeOf, Timed;
    StepStamp(ops[n], ss[n], name);
  }

  lemma UndisturbedUpTo(ss: seq<Space>, ops: seq<Op>, i: nat, j: nat, name: Name, at: int)
    requires i <= j < |ops| < |ss| && Undisturbed(ss, ops, i, j + 1, name, at)
    ensures Undisturbed(ss, ops, i, j, name, at)
    ensures !ops[j].Clear? && !(ops[j].Release? && ops[j].name == name) && !Reclaims(ops[j], ss[j])
    ensures ops[j].Cleanup? ==> ops[j].now <= at + ss[j].ttl
  {
  }

  lemma OrderedUse(ops: seq<Op>, i: nat, j: nat)
    requires TimesInOrder(ops) && i < j < |ops| && Timed(ops[i])
    ensures Timed(ops[j]) ==> TimeOf(ops[i]) <= TimeOf(ops[j])
  {
  }
}
