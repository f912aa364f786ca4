/** The fake-IP allocator: two inverse maps, a wrapping cursor and a bounded scan (src/fakeip.rs). */
module FakeIp {
  import opened Octets
  import opened Names
  import opened Bounded
  import opened Sets

  const EVICT_STRIDE: nat := 8

  datatype Entry = Entry(name: Name, created: int, lastAccess: int)

  function LastAccess(e: Entry): int { e.lastAccess }

  /** One candidate of the cursor: the address, and who owned it then. Without an owner it was handed out. */
  datatype Visit = Visit(key: nat, owner: Option<Name>)

  /** One address family's allocation space. `visits` is history: every candidate the cursor produced. */
  datatype Space = Space(first: nat, last: nat, maxEntries: nat, ttl: int, next: nat, byKey: map<nat, Entry>,
                         byName: map<Name, nat>, evicted: nat, visits: seq<Visit>)
  {
    predicate Ranged() {
      first <= last && maxEntries > 0
    }

    function Size(): int {
      last - first + 1
    }

    /** The configured cap, or the space itself if it is smaller. */
    function Cap(): int {
      if maxEntries < Size() then maxEntries else Size()
    }
  }

  // ---------------------------------------------------------------------------------------------
  // The cursor

  /** Where the cursor stands, brought back into the range if need be. */
  function Cursor(s: Space): nat {
    if s.next < s.first || s.next > s.last then s.first else s.next
  }

  function Following(first: nat, last: nat, c: nat): nat {
    if c >= last then first else c + 1
  }

  function OwnerOf(byKey: map<nat, Entry>, key: nat): Option<Name> {
    if key in byKey then Some(byKey[key].name) else None
  }

  /** `advance`: the candidate, and the space with the cursor past it. */
  function Advanced(s: Space): Space {
    var c := Cursor(s);
    s.(next := Following(s.first, s.last, c), visits := s.visits + [Visit(c, OwnerOf(s.byKey, c))])
  }

  /** `take_key`: the first free one of at most `limit` candidates. */
  function Taken(s: Space, limit: nat): (Option<nat>, Space)
    decreases limit
  {
    if limit == 0 then (None, s)
    else if Cursor(s) !in s.byKey then (Some(Cursor(s)), Advanced(s))
    else Taken(Advanced(s), limit - 1)
  }

  /** The candidate `j` steps ahead, up to one whole round. */
  function Ahead(first: nat, last: nat, c: nat, j: nat): nat
    requires first <= c <= last && j <= last - first + 1
  {
    if c + j <= last then c + j else c + j - (last - first + 1)
  }

  /** The first `j` candidates. */
  function Candidates(first: nat, last: nat, c: nat, j: nat): set<nat>
    requires first <= c <= last && j <= last - first + 1
  {
    if j == 0 then {} else Candidates(first, last, c, j - 1) + {Ahead(first, last, c, j - 1)}
  }

  /** Within a round no candidate comes twice. */
  lemma {:induction false} CandidatesDiffer(first: nat, last: nat, c: nat, j: nat)
    requires first <= c <= last && j <= last - first + 1
    ensures |Candidates(first, last, c, j)| == j
    ensures forall k :: k in Candidates(first, last, c, j) ==> exists i: nat :: i < j && k == Ahead(first, last, c, i)
  {
    if j > 0 {
      CandidatesDiffer(first, last, c, j - 1);
    }
  }

  lemma {:induction false} ScanFindsFrom(s: Space, limit: nat, j: nat, c: nat)
    requires s.Ranged() && s.first <= c <= s.last && j + limit <= s.Size()
    requires j < s.Size() && Cursor(s) == Ahead(s.first, s.last, c, j)
    requires Candidates(s.first, s.last, c, j) <= s.byKey.Keys && Taken(s, limit).0.None?
    ensures Candidates(s.first, s.last, c, j + limit) <= s.byKey.Keys
    decreases limit
  {
    if limit > 0 && j + 1 < s.Size() {
      ScanFindsFrom(Advanced(s), limit - 1, j + 1, c);
    }
  }

  /** Pigeonhole: among one candidate more than there are mappings one is free, if the space is not full. */
  lemma ScanFinds(s: Space)
    requires s.Ranged() && |s.byKey| < s.Size()
    ensures Taken(s, |s.byKey| + 1).0.Some?
  {
    var c, n := Cursor(s), |s.byKey| + 1;
    if Taken(s, n).0.None? {
      ScanFindsFrom(s, n, 0, c);
      CandidatesDiffer(s.first, s.last, c, n);
      Smaller(Candidates(s.first, s.last, c, n), s.byKey.Keys);
    }
  }

  /** The candidates visited, and nothing else, distinguish the space after a scan: all of them had an
      owner but the last, which is the key found. */
  lemma {:induction false} ScanVisits(s: Space, limit: nat)
    requires s.Ranged()
    ensures var (k, t) := Taken(s, limit);
            && t == s.(next := t.next, visits := t.visits) && s.visits <= t.visits
            && (k.Some? ==> s.first <= k.value <= s.last && k.value !in s.byKey
                            && |t.visits| > |s.visits| && t.visits[|t.visits| - 1] == Visit(k.value, None))
            && (forall i :: |s.visits| <= i < |t.visits| - (if k.Some? then 1 else 0) ==>
                  t.visits[i].key in s.byKey && t.visits[i].owner == Some(s.byKey[t.visits[i].key].name))
    decreases limit
  {
    if limit > 0 && Cursor(s) in s.byKey {
      ScanVisits(Advanced(s), limit - 1);
    }
  }

  // ---------------------------------------------------------------------------------------------
  // Operations

  /** `rebuild_name_index` after the first `n` keys. */
  function Rebuilt(byKey: map<nat, Entry>, keys: seq<nat>, n: nat): map<Name, nat>
    requires n <= |keys| && Lists(keys, byKey.Keys)
  {
    if n == 0 then map[] else Rebuilt(byKey, keys, n - 1)[byKey[keys[n - 1]].name := keys[n - 1]]
  }

  function Index(byKey: map<nat, Entry>): map<Name, nat> {
    InOrderLists(byKey.Keys);
    Rebuilt(byKey, InOrder(byKey.Keys), |InOrder(byKey.Keys)|)
  }

  /** After a sweep that left `kept`: the index is rebuilt if anything went. */
  function Swept(s: Space, kept: map<nat, Entry>): Space {
    if |kept| == |s.byKey| then s.(byKey := kept) else s.(byKey := kept, byName := Index(kept))
  }

  /** A sweep for capacity also counts what it dropped. */
  function Counted(s: Space, kept: map<nat, Entry>): Space
    requires |kept| <= |s.byKey|
  {
    Swept(s, kept).(evicted := s.evicted + (|s.byKey| - |kept|))
  }

  /** `reclaim`. */
  function Reclaimed(s: Space, now: int): Space {
    EvictionContract(s.byKey, now - s.ttl, EVICT_STRIDE, LastAccess);
    Counted(s, Evicted(s.byKey, now - s.ttl, EVICT_STRIDE, LastAccess))
  }

  function Touched(byKey: map<nat, Entry>, key: nat, now: int): map<nat, Entry> {
    if key in byKey then byKey[key := byKey[key].(lastAccess := now)] else byKey
  }

  function Inserted(s: Space, key: nat, name: Name, now: int): Space {
    s.(byKey := s.byKey[key := Entry(name, now, now)], byName := s.byName[name := key])
  }

  /** The space in which `allocate` looks for a free key. */
  function WithRoom(s: Space, now: int): Space {
    if |s.byKey| >= s.Cap() then Reclaimed(s, now) else s
  }

  function Allocated(s: Space, name: Name, now: int): (Result<nat>, Space) {
    if name in s.byName then (Ok(s.byName[name]), s.(byKey := Touched(s.byKey, s.byName[name], now)))
    else
      var r := WithRoom(s, now);
      var (k, t) := Taken(r, |r.byKey| + 1);
      match k
      case None => (Err(Internal), t)
      case Some(key) => (Ok(key), Inserted(t, key, name, now))
  }

  function LookedUp(s: Space, key: nat, now: int): (Option<Name>, Space) {
    (OwnerOf(s.byKey, key), s.(byKey := Touched(s.byKey, key, now)))
  }

  function Restored(s: Space, name: Name, key: nat, now: int): (bool, Space) {
    if key < s.first || key > s.last then (false, s)
    else if key in s.byKey && s.byKey[key].name != name then (false, s)
    else if name in s.byName && s.byName[name] != key then (false, s)
    else (true, Inserted(s, key, name, now))
  }

  function CleanedUp(s: Space, now: int): Space {
    Swept(s, Fresh(s.byKey, now - s.ttl, LastAccess))
  }

  function Released(s: Space, name: Name): (Option<nat>, Space) {
    if name in s.byName then
      (Some(s.byName[name]), s.(byKey := s.byKey - {s.byName[name]}, byName := s.byName - {name}))
    else (None, s)
  }

  function Cleared(s: Space): Space {
    s.(byKey := map[], byName := map[])
  }

  // ---------------------------------------------------------------------------------------------
  // Invariants

  /** Address and name determine each other. */
  ghost predicate Inverse(byKey: map<nat, Entry>, byName: map<Name, nat>) {
    && (forall k :: k in byKey ==> byKey[k].name in byName && byName[byKey[k].name] == k)
    && (forall n :: n in byName ==> byName[n] in byKey && byKey[byName[n]].name == n)
  }

  ghost predicate Valid(s: Space) {
    s.Ranged() && Inverse(s.byKey, s.byName) && forall k :: k in s.byKey ==> s.first <= k <= s.last
  }

  lemma {:induction false} RebuiltIs(byKey: map<nat, Entry>, keys: seq<nat>, n: nat)
    requires n <= |keys| && Lists(keys, byKey.Keys)
    requires forall i, j :: 0 <= i < j < |keys| ==> byKey[keys[i]].name != byKey[keys[j]].name
    ensures var index := Rebuilt(byKey, keys, n);
            && (forall i :: 0 <= i < n ==> byKey[keys[i]].name in index && index[byKey[keys[i]].name] == keys[i])
            && (forall m :: m in index ==> exists i :: 0 <= i < n && index[m] == keys[i] && byKey[keys[i]].name == m)
  {
    if n > 0 {
      RebuiltIs(byKey, keys, n - 1);
    }
  }

  lemma IndexInverts(kept: map<nat, Entry>)
    requires forall k, j :: k in kept && j in kept && k != j ==> kept[k].name != kept[j].name
    ensures Inverse(kept, Index(kept))
  {
    var keys := InOrder(kept.Keys);
    InOrderLists(kept.Keys);
    RebuiltIs(kept, keys, |keys|);
    forall k | k in kept ensures kept[k].name in Index(kept) && Index(kept)[kept[k].name] == k {
      var i := Position(kept.Keys, k);
    }
  }

  /** Rebuilding after a sweep restores the inverse, since what was kept had distinct names. */
  lemma IndexIsInverse(kept: map<nat, Entry>, all: map<nat, Entry>, byName: map<Name, nat>)
    requires Inverse(all, byName) && Within(kept, all)
    ensures Inverse(kept, Index(kept)) && forall n :: n in Index(kept) ==> n in byName && Index(kept)[n] == byName[n]
  {
    hide Index;
    IndexInverts(kept);
  }

  lemma SameSize(kept: map<nat, Entry>, all: map<nat, Entry>)
    requires Within(kept, all) && |kept| == |all|
    ensures kept == all
  {
    if k :| k in all && k !in kept {
      assert kept.Keys <= all.Keys - {k};
      Smaller(kept.Keys, all.Keys - {k});
    }
  }

  /** Dropping entries and rebuilding the index keeps a space valid. */
  lemma SweepKeeps(s: Space, kept: map<nat, Entry>)
    requires Valid(s) && Within(kept, s.byKey)
    ensures Valid(Swept(s, kept)) && |kept| <= |s.byKey|
    ensures Within(Swept(s, kept).byKey, s.byKey)
    ensures forall n :: n in Swept(s, kept).byName ==> n in s.byName && Swept(s, kept).byName[n] == s.byName[n]
  {
    IndexIsInverse(kept, s.byKey, s.byName);
    assert kept.Keys <= s.byKey.Keys;
    Smaller(kept.Keys, s.byKey.Keys);
    if |kept| == |s.byKey| {
      SameSize(kept, s.byKey);
    }
  }

  lemma EvictedSome(byKey: map<nat, Entry>, cut: int) returns (kept: map<nat, Entry>)
    ensures kept == Evicted(byKey, cut, EVICT_STRIDE, LastAccess)
    ensures Within(kept, byKey) && (|byKey| > 0 ==> |kept| < |byKey|) && |kept| <= |byKey|
  {
    kept := Evicted(byKey, cut, EVICT_STRIDE, LastAccess);
    EvictionContract(byKey, cut, EVICT_STRIDE, LastAccess);
  }

  lemma ReclaimedIsValid(s: Space, now: int) returns (kept: map<nat, Entry>)
    requires Valid(s)
    ensures Within(kept, s.byKey) && (|s.byKey| > 0 ==> |kept| < |s.byKey|) && |kept| <= |s.byKey|
    ensures Valid(Swept(s, kept)) && Reclaimed(s, now) == Counted(s, kept)
  {
    hide Evicted, Swept;
    kept := EvictedSome(s.byKey, now - s.ttl);
    SweepKeeps(s, kept);
  }

  lemma InverseInsert(byKey: map<nat, Entry>, byName: map<Name, nat>, key: nat, e: Entry)
    requires Inverse(byKey, byName) && (key in byKey ==> byKey[key].name == e.name)
    requires e.name in byName ==> byName[e.name] == key
    ensures Inverse(byKey[key := e], byName[e.name := key])
  {
  }

  lemma SizeInsert(byKey: map<nat, Entry>, key: nat, e: Entry)
    ensures |byKey[key := e]| == |byKey| + if key in byKey then 0 else 1
  {
    if key in byKey {
      assert byKey[key := e].Keys == byKey.Keys;
    } else {
      assert byKey[key := e].Keys == byKey.Keys + {key};
    }
  }

  lemma InsertKeeps(s: Space, key: nat, name: Name, now: int)
    requires Valid(s) && s.first <= key <= s.last
    requires key in s.byKey ==> s.byKey[key].name == name
    requires name in s.byName ==> s.byName[name] == key
    ensures Valid(Inserted(s, key, name, now))
    ensures |Inserted(s, key, name, now).byKey| == |s.byKey| + if key in s.byKey then 0 else 1
  {
    InverseInsert(s.byKey, s.byName, key, Entry(name, now, now));
    SizeInsert(s.byKey, key, Entry(name, now, now));
  }

  lemma TouchKeeps(s: Space, key: nat, now: int)
    requires Valid(s)
    ensures Valid(s.(byKey := Touched(s.byKey, key, now)))
    ensures |Touched(s.byKey, key, now)| == |s.byKey|
  {
    assert Touched(s.byKey, key, now).Keys == s.byKey.Keys;
  }

  lemma RoomIsMade(s: Space, now: int)
    requires Valid(s)
    ensures var r := WithRoom(s, now);
            && Valid(r) && Within(r.byKey, s.byKey)
            && r == s.(byKey := r.byKey, byName := r.byName, evicted := r.evicted)
            && (forall n :: n in r.byName ==> n in s.byName && r.byName[n] == s.byName[n])
            && |r.byKey| < r.Size() && |r.byKey| + 1 <= (if |s.byKey| < s.Cap() then s.Cap() else |s.byKey|)
  {
    KeysFit(s);
    if |s.byKey| >= s.Cap() {
      var kept := ReclaimedIsValid(s, now);
      SweepKeeps(s, kept);
    }
  }

  lemma {:induction false} RangeSize(first: nat, n: nat, keys: set<nat>)
    requires forall k :: k in keys ==> first <= k < first + n
    ensures |keys| <= n
  {
    if n > 0 {
      var rest := keys - {first + n - 1};
      RangeSize(first, n - 1, rest);
      Smaller(keys, rest + {first + n - 1});
    } else {
      assert keys == {};
    }
  }

  lemma KeysFit(s: Space)
    requires Valid(s)
    ensures |s.byKey| <= s.Size()
  {
    RangeSize(s.first, s.last - s.first + 1, s.byKey.Keys);
  }

  lemma InsertAfterScan(r: Space, t: Space, key: nat, name: Name, now: int)
    requires Valid(r) && name !in r.byName && key !in r.byKey && r.first <= key <= r.last
    requires t == r.(next := t.next, visits := t.visits)
    ensures Valid(Inserted(t, key, name, now)) && |Inserted(t, key, name, now).byKey| == |r.byKey| + 1
  {
    InsertKeeps(t, key, name, now);
  }

  lemma AllocateNew(s: Space, name: Name, now: int)
    requires Valid(s) && name !in s.byName
    ensures var (r, t) := Allocated(s, name, now);
            && Valid(t) && r.Ok? && s.first <= r.value <= s.last
            && name in t.byName && t.byName[name] == r.value && t.byKey[r.value].name == name
            && |t.byKey| <= (if |s.byKey| < s.Cap() then s.Cap() else |s.byKey|)
  {
    var r := WithRoom(s, now);
    hide WithRoom, Taken, Valid;
    RoomIsMade(s, now);
    assert r.Ranged() by {
      RangedIs(r);
    }
    ScanFinds(r);
    ScanVisits(r, |r.byKey| + 1);
    InsertAfterScan(r, Taken(r, |r.byKey| + 1).1, Taken(r, |r.byKey| + 1).0.value, name, now);
  }

  lemma RangedIs(s: Space)
    requires Valid(s)
    ensures s.Ranged()
  {
  }

  /** `allocate` never fails, hands out an address of the range that belongs to the name, takes the size
      no further than the cap or where it was, and keeps the maps inverse. */
  lemma AllocateIsSafe(s: Space, name: Name, now: int)
    requires Valid(s)
    ensures var (r, t) := Allocated(s, name, now);
            && Valid(t) && r.Ok? && s.first <= r.value <= s.last
            && name in t.byName && t.byName[name] == r.value && t.byKey[r.value].name == name
            && (name in s.byName ==> r.value == s.byName[name] && |t.byKey| == |s.byKey|)
            && |t.byKey| <= (if |s.byKey| < s.Cap() then s.Cap() else |s.byKey|)
  {
    hide WithRoom, Taken;
    if name in s.byName {
      TouchKeeps(s, s.byName[name], now);
    } else {
      AllocateNew(s, name, now);
    }
  }

  // ---------------------------------------------------------------------------------------------
  // Runs

  datatype Op =
    | Allocate(name: Name, now: int)
    | Lookup(key: nat, now: int)
    | Restore(name: Name, key: nat, now: int)
    | Cleanup(now: int)
    | Release(name: Name)
    | Clear

  function Apply(op: Op, s: Space): Space {
    match op
    case Allocate(name, now) => Allocated(s, name, now).1
    case Lookup(key, now) => LookedUp(s, key, now).1
    case Restore(name, key, now) => Restored(s, name, key, now).1
    case Cleanup(now) => CleanedUp(s, now)
    case Release(name) => Released(s, name).1
    case Clear => Cleared(s)
  }

  /** What the two maps say of the names that survive a step. */
  ghost predicate SameAddresses(s: Space, t: Space) {
    forall n :: n in s.byName && n in t.byName ==> t.byName[n] == s.byName[n]
  }

  lemma AllocateKeepsAddresses(s: Space, name: Name, now: int)
    requires Valid(s)
    ensures SameAddresses(s, Allocated(s, name, now).1)
  {
    if name !in s.byName {
      RoomIsMade(s, now);
      var r := WithRoom(s, now);
      ScanFinds(r);
      ScanVisits(r, |r.byKey| + 1);
    }
  }

  lemma LookupKeeps(s: Space, key: nat, now: int)
    requires Valid(s)
    ensures Valid(LookedUp(s, key, now).1) && SameAddresses(s, LookedUp(s, key, now).1)
  {
    TouchKeeps(s, key, now);
  }

  lemma RestoreKeeps(s: Space, name: Name, key: nat, now: int)
    requires Valid(s)
    ensures Valid(Restored(s, name, key, now).1) && SameAddresses(s, Restored(s, name, key, now).1)
  {
    if Restored(s, name, key, now).0 {
      InsertKeeps(s, key, name, now);
    }
  }

  lemma CleanupKeeps(s: Space, now: int)
    requires Valid(s)
    ensures Valid(CleanedUp(s, now)) && SameAddresses(s, CleanedUp(s, now))
  {
    hide Swept;
    SweepKeeps(s, Fresh(s.byKey, now - s.ttl, LastAccess));
  }

  lemma ReleaseKeeps(s: Space, name: Name)
    requires Valid(s)
    ensures Valid(Released(s, name).1) && SameAddresses(s, Released(s, name).1)
  {
  }

  /** Every operation keeps the maps inverse and the addresses in range, and no name that keeps a mapping
      changes its address. */
  lemma StepKeeps(op: Op, s: Space)
    requires Valid(s)
    ensures Valid(Apply(op, s)) && SameAddresses(s, Apply(op, s))
  {
    match op
    case Allocate(name, now) =>
      AllocateIsSafe(s, name, now);
      AllocateKeepsAddresses(s, name, now);
    case Lookup(key, now) => LookupKeeps(s, key, now);
    case Restore(name, key, now) => RestoreKeeps(s, name, key, now);
    case Cleanup(now) => CleanupKeeps(s, now);
    case Release(name) => ReleaseKeeps(s, name);
    case Clear =>
  }

  ghost predicate IsRun(ss: seq<Space>, ops: seq<Op>) {
    |ss| == |ops| + 1 && forall i :: 0 <= i < |ops| ==> ss[i + 1] == Apply(ops[i], ss[i])
  }

  lemma {:induction false} RunIsValid(ss: seq<Space>, ops: seq<Op>, n: nat)
    requires IsRun(ss, ops) && Valid(ss[0]) && n <= |ops|
    ensures Valid(ss[n])
  {
    if n > 0 {
      RunIsValid(ss, ops, n - 1);
      StepKeeps(ops[n - 1], ss[n - 1]);
    }
  }

  /** In every run of the operations an allocation succeeds with an address of the range, and the name it
      was made for is what that address then looks up to. */
  lemma RunNeverFails(ss: seq<Space>, ops: seq<Op>, n: nat)
    requires IsRun(ss, ops) && Valid(ss[0]) && n < |ops| && ops[n].Allocate?
    ensures var r := Allocated(ss[n], ops[n].name, ops[n].now).0;
            && r.Ok? && ss[n].first <= r.value <= ss[n].last
            && OwnerOf(ss[n + 1].byKey, r.value) == Some(ops[n].name)
  {
    RunIsValid(ss, ops, n);
    AllocateIsSafe(ss[n], ops[n].name, ops[n].now);
  }

  /** While a name keeps a mapping it keeps its address, and the address looks up to it. */
  lemma {:induction false} RunIsStable(ss: seq<Space>, ops: seq<Op>, i: nat, j: nat, name: Name)
    requires IsRun(ss, ops) && Valid(ss[0]) && i <= j <= |ops|
    requires forall k :: i <= k <= j ==> name in ss[k].byName
    ensures ss[j].byName[name] == ss[i].byName[name]
    ensures OwnerOf(ss[j].byKey, ss[i].byName[name]) == Some(name)
    decreases j
  {
    hide Apply;
    RunIsValid(ss, ops, j);
    if i < j {
      RunIsStable(ss, ops, i, j - 1, name);
      RunIsValid(ss, ops, j - 1);
      StepKeeps(ops[j - 1], ss[j - 1]);
    }
  }

  /** Restoring ignores the cap. It takes the size past it exactly if it was past it already, or a new
      address is accepted in a space that is just full. */
  lemma RestorePassesCap(s: Space, name: Name, key: nat, now: int)
    ensures var (ok, t) := Restored(s, name, key, now);
            |t.byKey| > t.Cap() <==> |s.byKey| > s.Cap() || (ok && key !in s.byKey && |s.byKey| == s.Cap())
  {
    SizeInsert(s.byKey, key, Entry(name, now, now));
  }

  /** A mapping is accepted if and only if its address is in the range, belongs to nobody else, and its name has
      no other address; then it is there, and everything else is as it was. A refusal changes nothing. */
  lemma RestoreAccepts(s: Space, name: Name, key: nat, now: int)
    requires Valid(s)
    ensures var (ok, t) := Restored(s, name, key, now);
            && (ok <==> s.first <= key <= s.last && forall n :: n in s.byName ==> (s.byName[n] == key <==> n == name))
            && (!ok ==> t == s)
            && (ok ==> t.byKey == s.byKey[key := Entry(name, now, now)] && t.byName == s.byName[name := key])
  {
    if key in s.byKey {
      assert s.byName[s.byKey[key].name] == key;
    }
  }

  /** A full space that takes one more mapping. */
  lemma RestoreIgnoresCap(a: Name, b: Name) returns (s: Space)
    requires a != b
    ensures Valid(s) && |s.byKey| == s.Cap() && |Restored(s, b, 2, 0).1.byKey| == s.Cap() + 1
  {
    s := Space(1, 9, 1, 0, 1, map[1 := Entry(a, 0, 0)], map[a := 1], 0, []);
    SizeInsert(s.byKey, 2, Entry(b, 0, 0));
  }

  /** Reclaiming drops the least recently used mappings exactly if some are stale, fewer than eight are
      held, or every eighth in address order happens to have been used no later than the others. */
  lemma ReclaimRespectsRecency(s: Space, now: int)
    ensures var keys := InOrder(s.byKey.Keys);
            && Lists(keys, s.byKey.Keys)
            && (OldestGo(s.byKey, Reclaimed(s, now).byKey, LastAccess) <==>
                !AllFresh(s.byKey, now - s.ttl, LastAccess) || |s.byKey| < 8
                || MultiplesOldest(s.byKey, keys, 8, LastAccess))
  {
    hide Evicted, InOrder;
    InOrderLists(s.byKey.Keys);
    OldestGoWhen(s.byKey, now - s.ttl, EVICT_STRIDE, LastAccess, 8, InOrder(s.byKey.Keys));
  }

  /** Making room counts what it drops. */
  lemma ReclaimCounts(s: Space, now: int)
    ensures Reclaimed(s, now).evicted == s.evicted + |s.byKey| - |Reclaimed(s, now).byKey|
  {
    hide Evicted, Index;
    EvictionContract(s.byKey, now - s.ttl, EVICT_STRIDE, LastAccess);
  }

  /** In a pool of at least eight fresh mappings, the ones reclaimed are every eighth in address order. */
  lemma ReclaimIgnoresRecency(s: Space, now: int, i: nat)
    requires AllFresh(s.byKey, now - s.ttl, LastAccess) && i < |InOrder(s.byKey.Keys)| && |s.byKey| >= 8
    ensures InOrder(s.byKey.Keys)[i] in Reclaimed(s, now).byKey <==> (i + 1) % 8 != 0
  {
    hide Evicted, InOrder;
    StridePass(s.byKey, now - s.ttl, EVICT_STRIDE, LastAccess, 8, InOrder(s.byKey.Keys));
  }

  /** A name for each number: its digits to the base 256. */
  function NumberName(k: nat): (n: Name)
    ensures n.Sub?
  {
    Sub([(k % 0x100) as byte], if k < 0x100 then Root else NumberName(k / 0x100))
  }

  lemma {:induction false} NumberNamesDiffer(j: nat, k: nat)
    requires NumberName(j) == NumberName(k)
    ensures j == k
  {
    assert (j % 0x100) as byte == (k % 0x100) as byte;
    if j >= 0x100 && k >= 0x100 {
      NumberNamesDiffer(j / 0x100, k / 0x100);
    }
  }

  /** A mapping for each address from 1 to `n`, of which the one for `used` was used last. */
  function Pool(n: nat, used: nat): (m: map<nat, Entry>)
    ensures m.Keys == FirstNumbers(n)
    ensures forall k :: k in m ==> m[k] == Entry(NumberName(k), 0, if k == used then 1 else 0)
  {
    map k | k in FirstNumbers(n) :: Entry(NumberName(k), 0, if k == used then 1 else 0)
  }

  function FirstNumbers(n: nat): (s: set<nat>)
    ensures |s| == n && forall k: nat :: k in s <==> 1 <= k <= n
  {
    if n == 0 then {} else FirstNumbers(n - 1) + {n}
  }

  lemma {:induction false} AtLeastItsPlace(keys: seq<nat>, s: set<nat>, i: nat)
    requires Lists(keys, s) && (forall k :: k in s ==> k >= 1) && i < |keys|
    ensures keys[i] >= i + 1
  {
    if i > 0 {
      AtLeastItsPlace(keys, s, i - 1);
    }
  }

  lemma {:induction false} AtMostItsPlace(keys: seq<nat>, s: set<nat>, i: nat)
    requires Lists(keys, s) && (forall k :: k in s ==> k <= |keys|) && i < |keys|
    ensures keys[i] <= i + 1
    decreases |keys| - i
  {
    if i < |keys| - 1 {
      AtMostItsPlace(keys, s, i + 1);
    }
  }

  lemma NumbersInOrder(s: set<nat>, n: nat)
    requires s == FirstNumbers(n)
    ensures Lists(InOrder(s), s) && forall i :: 0 <= i < n ==> InOrder(s)[i] == i + 1
  {
    var keys := InOrder(s);
    InOrderLists(s);
    hide InOrder;
    forall i | 0 <= i < n ensures keys[i] == i + 1 {
      AtLeastItsPlace(keys, s, i);
      AtMostItsPlace(keys, s, i);
    }
  }

  lemma EighthsGo(m: map<nat, Entry>, n: nat, cut: int)
    requires n >= 8 && m.Keys == FirstNumbers(n) && AllFresh(m, cut, LastAccess)
    ensures forall k :: k in m ==> (k in Evicted(m, cut, EVICT_STRIDE, LastAccess) <==> k % 8 != 0)
  {
    var keys, kept := InOrder(m.Keys), Evicted(m, cut, EVICT_STRIDE, LastAccess);
    hide Evicted, InOrder, AllFresh;
    assert |m| == |m.Keys|;
    NumbersInOrder(m.Keys, n);
    StridePass(m, cut, EVICT_STRIDE, LastAccess, 8, keys);
    forall k | k in m ensures k in kept <==> k % 8 != 0 {
      assert keys[k - 1] == k;
    }
  }

  /** Full pools in which the mapping used last is reclaimed and seven of every eight unused ones stay. */
  lemma LastUsedGoes(n: nat) returns (s: Space)
    requires n >= 8
    ensures Valid(s) && |s.byKey| == s.Cap() == n && s.byKey.Keys == FirstNumbers(n)
    ensures forall k :: k in s.byKey && k != 8 ==> s.byKey[k].lastAccess < s.byKey[8].lastAccess
    ensures forall k :: k in s.byKey ==> (k in Reclaimed(s, 1).byKey <==> k % 8 != 0)
  {
    var m := Pool(n, 8);
    s := Space(1, n, n, 10, 1, m, Index(m), 0, []);
    PoolIsValid(s, n);
    hide Evicted, Swept, Inverse, Index;
    EighthsGo(m, n, -9);
  }

  lemma PoolIsValid(s: Space, n: nat)
    requires n > 0 && s == Space(1, n, n, 10, 1, Pool(n, 8), Index(Pool(n, 8)), 0, [])
    ensures Valid(s) && |s.byKey| == n
  {
    forall j, k | j in s.byKey && k in s.byKey && s.byKey[j].name == s.byKey[k].name ensures j == k {
      NumberNamesDiffer(j, k);
    }
    hide Index, Pool, FirstNumbers, NumberName;
    IndexInverts(s.byKey);
    assert |s.byKey| == |s.byKey.Keys|;
  }

  // ---------------------------------------------------------------------------------------------
  // Reuse

  /** The cursor has gone round the range without skipping. */
  ghost predicate Circular(s: Space) {
    && (forall i :: 0 <= i < |s.visits| ==> s.first <= s.visits[i].key <= s.last)
    && (forall i :: 0 <= i < |s.visits| - 1 ==>
          s.visits[i + 1].key == Following(s.first, s.last, s.visits[i].key))
    && (|s.visits| > 0 ==> Cursor(s) == Following(s.first, s.last, s.visits[|s.visits| - 1].key))
  }

  lemma AdvanceIsCircular(s: Space)
    requires s.Ranged() && Circular(s)
    ensures Circular(Advanced(s))
  {
    var t := Advanced(s);
    forall i | 0 <= i < |t.visits| - 1
      ensures t.visits[i + 1].key == Following(t.first, t.last, t.visits[i].key)
    {
      if i < |s.visits| - 1 {
        assert t.visits[i] == s.visits[i] && t.visits[i + 1] == s.visits[i + 1];
      }
    }
  }

  lemma {:induction false} ScanIsCircular(s: Space, limit: nat)
    requires s.Ranged() && Circular(s)
    ensures Circular(Taken(s, limit).1)
    decreases limit
  {
    if limit > 0 {
      AdvanceIsCircular(s);
      if Cursor(s) in s.byKey {
        ScanIsCircular(Advanced(s), limit - 1);
      }
    }
  }

  lemma SweptCursor(s: Space, now: int)
    requires Valid(s) && Circular(s)
    ensures Circular(WithRoom(s, now)) && WithRoom(s, now).Ranged()
  {
    RoomIsMade(s, now);
  }

  lemma AllocateIsCircular(s: Space, name: Name, now: int)
    requires Valid(s) && Circular(s)
    ensures Circular(Allocated(s, name, now).1)
  {
    hide WithRoom, Taken;
    if name !in s.byName {
      SweptCursor(s, now);
      ScanIsCircular(WithRoom(s, now), |WithRoom(s, now).byKey| + 1);
    }
  }

  /** Only allocation moves the cursor. */
  lemma CursorStays(op: Op, s: Space)
    requires !op.Allocate?
    ensures var t := Apply(op, s); t.first == s.first && t.last == s.last && t.next == s.next && t.visits == s.visits
  {
  }

  lemma SameCursor(s: Space, t: Space)
    requires Circular(s) && t.first == s.first && t.last == s.last && t.next == s.next && t.visits == s.visits
    ensures Circular(t)
  {
  }

  lemma StepIsCircular(op: Op, s: Space)
    requires Valid(s) && Circular(s)
    ensures Circular(Apply(op, s))
  {
    if op.Allocate? {
      AllocateIsCircular(s, op.name, op.now);
    } else {
      CursorStays(op, s);
      SameCursor(s, Apply(op, s));
    }
  }

  lemma {:induction false} RunIsCircular(ss: seq<Space>, ops: seq<Op>, n: nat)
    requires IsRun(ss, ops) && Valid(ss[0]) && ss[0].visits == [] && n <= |ops|
    ensures Circular(ss[n])
  {
    if n > 0 {
      RunIsCircular(ss, ops, n - 1);
      RunIsValid(ss, ops, n - 1);
      StepIsCircular(ops[n - 1], ss[n - 1]);
    }
  }

  lemma {:induction false} CircularAhead(s: Space, i: nat, d: nat)
    requires s.Ranged() && Circular(s) && i + d < |s.visits| && d <= s.Size()
    ensures s.visits[i + d].key == Ahead(s.first, s.last, s.visits[i].key, d)
  {
    if d > 0 {
      CircularAhead(s, i, d - 1);
      assert s.visits[i + (d - 1) + 1].key == Following(s.first, s.last, s.visits[i + (d - 1)].key);
    }
  }

  /** Between two visits of the cursor to the same address it went through the whole range: every address
      was visited after the first of them, and at that visit it had an owner or was handed out. */
  lemma ReuseDistance(ss: seq<Space>, ops: seq<Op>, n: nat, i: nat, j: nat, a: nat) returns (m: nat)
    requires IsRun(ss, ops) && Valid(ss[0]) && ss[0].visits == [] && n <= |ops|
    requires i < j < |ss[n].visits| && ss[n].visits[i].key == ss[n].visits[j].key
    requires ss[n].first <= a <= ss[n].last
    ensures j - i >= ss[n].Size()
    ensures i < m <= j && ss[n].visits[m].key == a
  {
    RunIsValid(ss, ops, n);
    RunIsCircular(ss, ops, n);
    var s, c := ss[n], ss[n].visits[i].key;
    if j - i < s.Size() {
      CircularAhead(s, i, j - i);
    }
    var d := if a > c then a - c else a - c + s.Size();
    CircularAhead(s, i, d);
    m := i + d;
  }

  /** A new name is handed the last address the cursor visited for it; every other address it passed was
      owned by a live mapping that is still there. */
  lemma HandOut(s: Space, name: Name, now: int)
    requires Valid(s) && name !in s.byName
    ensures var (r, t) := Allocated(s, name, now);
            && r.Ok? && s.visits < t.visits && t.visits[|t.visits| - 1] == Visit(r.value, None)
            && forall i :: |s.visits| <= i < |t.visits| - 1 ==>
                 t.visits[i].key in t.byKey && t.visits[i].owner == Some(t.byKey[t.visits[i].key].name)
  {
    hide WithRoom, Taken, Valid;
    RoomIsMade(s, now);
    var r := WithRoom(s, now);
    ScanFinds(r);
    ScanVisits(r, |r.byKey| + 1);
  }

  // ---------------------------------------------------------------------------------------------
  // The allocator as the program runs it

  class Allocator {
    const first: nat
    const last: nat
    const maxEntries: nat
    const ttl: int
    var next: nat
    var byKey: map<nat, Entry>
    var byName: map<Name, nat>
    var evicted: nat
    ghost var visits: seq<Visit>

    ghost function Value(): Space
      reads this
    {
      Space(first, last, maxEntries, ttl, next, byKey, byName, evicted, visits)
    }

    /** `Space::new`; a range parsed from the configuration is never empty. */
    constructor (first: nat, last: nat, maxEntries: nat, ttl: int)
      requires first <= last
      ensures Valid(Value()) && Circular(Value()) && visits == [] && byKey == map[]
      ensures this.first == first && this.last == last && Value().Cap() > 0
    {
      this.first, this.last, this.ttl := first, last, ttl;
      this.maxEntries := if maxEntries < 1 then 1 else maxEntries;
      next, byKey, byName, evicted, visits := first, map[], map[], 0, [];
    }

    /** `advance`. */
    method Advance() returns (cur: nat)
      modifies this
      ensures Value() == Advanced(old(Value())) && cur == Cursor(old(Value()))
    {
      if next < first || next > last {
        next := first;
      }
      cur := next;
      next := if cur >= last then first else cur + 1;
      visits := visits + [Visit(cur, OwnerOf(byKey, cur))];
    }

    /** `take_key`: scans at most one candidate more than there are mappings. */
    method TakeKey() returns (key: Option<nat>)
      modifies this
      ensures (key, Value()) == Taken(old(Value()), |old(byKey)| + 1)
    {
      var limit := |byKey| + 1;
      for i := 0 to limit
        invariant byKey == old(byKey)
        invariant Taken(old(Value()), limit) == Taken(Value(), limit - i)
      {
        var c := Advance();
        if c !in byKey {
          return Some(c);
        }
      }
      key := None;
    }

    /** `rebuild_name_index`. */
    method RebuildNameIndex()
      modifies this
      ensures Value() == old(Value()).(byName := Index(byKey))
    {
      var keys := InOrder(byKey.Keys);
      InOrderLists(byKey.Keys);
      byName := map[];
      for i := 0 to |keys|
        invariant byKey == old(byKey)
        invariant Value() == old(Value()).(byName := Rebuilt(byKey, keys, i))
      {
        byName := byName[byKey[keys[i]].name := keys[i]];
      }
    }

    /** `reclaim`. */
    method Reclaim(now: int)
      modifies this
      ensures Value() == Reclaimed(old(Value()), now)
    {
      hide Evicted, Index, Visited;
      var kept, freed, visits := EvictForCapacity(byKey, now - ttl, EVICT_STRIDE, LastAccess);
      EvictionContract(byKey, now - ttl, EVICT_STRIDE, LastAccess);
      byKey := kept;
      if freed > 0 {
        evicted := evicted + freed;
        RebuildNameIndex();
      }
    }

    /** `allocate`. */
    method Allocate(name: Name, now: int) returns (r: Result<nat>)
      modifies this
      ensures (r, Value()) == Allocated(old(Value()), name, now)
      ensures Valid(old(Value())) ==> r.Ok?
    {
      hide Reclaimed, Taken, Valid;
      ghost var s := Value();
      if Valid(s) {
        AllocateIsSafe(s, name, now);
      }
      if name in byName {
        var key := byName[name];
        if key in byKey {
          byKey := byKey[key := byKey[key].(lastAccess := now)];
        }
        return Ok(key);
      }
      var cap := if maxEntries < last - first + 1 then maxEntries else last - first + 1;
      if |byKey| >= cap {
        Reclaim(now);
      }
      assert Value() == WithRoom(s, now);
      var key := TakeKey();
      if key.None? {
        return Err(Internal);
      }
      byKey := byKey[key.value := Entry(name, now, now)];
      byName := byName[name := key.value];
      r := Ok(key.value);
    }

    /** `lookup`. */
    method Lookup(key: nat, now: int) returns (name: Option<Name>)
      modifies this
      ensures (name, Value()) == LookedUp(old(Value()), key, now)
      ensures byKey.Keys == old(byKey.Keys) && byName == old(byName)
      ensures key in byKey ==> byKey[key] == old(byKey)[key].(lastAccess := now) && name == Some(byKey[key].name)
      ensures forall k :: k in byKey && k != key ==> byKey[k] == old(byKey)[k]
    {
      if key !in byKey {
        return None;
      }
      byKey := byKey[key := byKey[key].(lastAccess := now)];
      name := Some(byKey[key].name);
    }

    /** `restore`. */
    method Restore(name: Name, key: nat, now: int) returns (ok: bool)
      modifies this
      ensures (ok, Value()) == Restored(old(Value()), name, key, now)
    {
      if key < first || key > last || (key in byKey && byKey[key].name != name)
         || (name in byName && byName[name] != key) {
        return false;
      }
      byName := byName[name := key];
      byKey := byKey[key := Entry(name, now, now)];
      ok := true;
    }

    /** `cleanup_expired`: how many mappings went. */
    method CleanupExpired(now: int) returns (gone: nat)
      modifies this
      ensures Value() == CleanedUp(old(Value()), now) && gone == |old(byKey)| - |byKey|
    {
      hide Index, InOrder, Fresh;
      var before, keys := |byKey|, InOrder(byKey.Keys);
      InOrderLists(byKey.Keys);
      FreshShrinks(byKey, now - ttl, LastAccess);
      var kept, visits := RetainFresh(byKey, keys, now - ttl, LastAccess);
      byKey := kept;
      if |byKey| != before {
        RebuildNameIndex();
      }
      gone := before - |byKey|;
    }

    /** `release`. */
    method Release(name: Name) returns (key: Option<nat>)
      modifies this
      ensures (key, Value()) == Released(old(Value()), name)
    {
      if name !in byName {
        return None;
      }
      key := Some(byName[name]);
      byName := byName - {name};
      byKey := byKey - {key.value};
    }

    method Clear()
      modifies this
      ensures Value() == Cleared(old(Value()))
    {
      byKey, byName := map[], map[];
    }
  }
}
