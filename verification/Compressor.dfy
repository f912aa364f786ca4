/** Name compression (section 4.1.4 of RFC 1035): the printer's offset table against the
    pointer-chasing parser (src/name.rs). */
module Compressor {
  import opened Octets
  import opened Names

  /** The largest offset a 14-bit pointer encodes; `record` keeps no larger one. */
  const MAX_POINTER_OFFSET: nat := 0x3fff

  type Offset = x: int | 0 <= x <= 0x3fff

  /** Where each non-root suffix was written. */
  type Table = map<Name, Offset>

  // ---------------------------------------------------------------------------------------------
  // What the octets at an offset mean, independently of the parser

  /** The octets of `buf` at `p` spell exactly `n`, following at most `hops` pointers and reading no
      position in `patched`. */
  ghost predicate Spells(buf: seq<byte>, patched: set<nat>, p: nat, n: Name, hops: nat)
    decreases hops, n
  {
    p < |buf| && p !in patched &&
    if buf[p] < 64 then
      match n
      case Root => buf[p] == 0
      case Sub(l, up) =>
        && buf[p] as int == |l| && HoldsAt(buf, p + 1, l)
        && (forall i: nat :: p < i <= p + |l| ==> i !in patched)
        && Spells(buf, patched, p + 1 + |l|, up, hops)
    else
      && 192 <= buf[p] && p + 1 < |buf| && p + 1 !in patched && hops > 0
      && Spells(buf, patched, Target(buf, p), n, hops - 1)
  }

  /** Decoding survives growth and patches: what a later buffer holds at the unpatched positions of an
      earlier one is spelled alike, with the same end. */
  lemma {:induction false} Survives(buf: seq<byte>, patched: set<nat>, buf': seq<byte>, patched': set<nat>,
                                    p: nat, n: Name, hops: nat, hops': nat)
    requires Spells(buf, patched, p, n, hops) && hops <= hops'
    requires |buf| <= |buf'|
    requires forall i: nat :: i < |buf| && i !in patched ==> buf'[i] == buf[i] && i !in patched'
    ensures Spells(buf', patched', p, n, hops')
    decreases hops, n
  {
    if buf[p] < 64 {
      if n.Sub? {
        HoldsSurvives(buf, buf', p + 1, n.first);
        Survives(buf, patched, buf', patched', p + 1 + |n.first|, n.parent, hops, hops');
      }
    } else {
      Survives(buf, patched, buf', patched', Target(buf, p), n, hops - 1, hops' - 1);
    }
  }

  /** The parser reads what the octets spell, within the hop, octet and label limits. */
  lemma {:induction false} WalkReadsSpelling(buf: seq<byte>, patched: set<nat>, p: nat, n: Name, hops: nat,
                                             used: nat, total: nat, count: nat)
    requires Spells(buf, patched, p, n, hops)
    requires used + hops <= MAX_POINTER_HOPS && total + WireLen(n) - 1 <= MAX_NAME_LEN
    requires count + LabelCount(n) <= MAX_LABELS
    ensures Walk(buf, p, used, total, count) == Ok(n)
    decreases hops, n
  {
    if buf[p] < 64 {
      if n.Sub? {
        WalkReadsSpelling(buf, patched, p + 1 + |n.first|, n.parent, hops, used, total + 1 + |n.first|, count + 1);
      }
    } else {
      WalkReadsSpelling(buf, patched, Target(buf, p), n, hops - 1, used + 1, total, count);
    }
  }

  /** A name written out in full spells itself, with no pointer. */
  lemma {:induction false} PlainSpells(buf: seq<byte>, patched: set<nat>, p: nat, n: Name)
    requires HoldsAt(buf, p, Wire(n))
    requires forall i: nat :: p <= i ==> i !in patched
    ensures Spells(buf, patched, p, n, 0)
    decreases n
  {
    match n
    case Root => HoldsParts(buf, p, [0], []);
    case Sub(l, up) =>
      HoldsParts(buf, p, [|l| as byte] + l, Wire(up));
      HoldsParts(buf, p, [|l| as byte], l);
      assert buf[p..p + 1] == [|l| as byte];
      PlainSpells(buf, patched, p + 1 + |l|, up);
  }

  // ---------------------------------------------------------------------------------------------
  // The printer

  function Pointer(off: Offset): (b: seq<byte>)
    ensures |b| == 2
  {
    [(192 + off / 0x100) as byte, (off % 0x100) as byte]
  }

  /** The octets written for `n`. They do not depend on the buffer: `t` holds all they need. */
  function NameBytes(t: Table, n: Name): (b: seq<byte>)
    ensures |b| > 0
    decreases n
  {
    if n == Root then [0]
    else if n in t then Pointer(t[n])
    else [|n.first| as byte] + n.first + NameBytes(t, n.parent)
  }

  /** The table after `n` has been written at offset `base`: the suffixes before the first one already
      in the table are recorded, where a pointer can reach them. */
  function NameTable(t: Table, base: nat, n: Name): Table
    decreases n
  {
    if n == Root || n in t then t
    else
      var t1 := NameTable(t, base + 1 + |n.first|, n.parent);
      if base <= MAX_POINTER_OFFSET then t1[n := base] else t1
  }

  /** The table invariant: every entry is a non-root suffix that its offset spells, within as many
      pointers as it has labels, in unpatched octets. */
  ghost predicate TableOk(buf: seq<byte>, patched: set<nat>, t: Table) {
    forall n :: n in t ==> n != Root && Spells(buf, patched, t[n], n, LabelCount(n))
  }

  lemma TableSurvives(buf: seq<byte>, patched: set<nat>, buf': seq<byte>, patched': set<nat>, t: Table)
    requires TableOk(buf, patched, t) && |buf| <= |buf'|
    requires forall i: nat :: i < |buf| && i !in patched ==> buf'[i] == buf[i] && i !in patched'
    ensures TableOk(buf', patched', t)
  {
    forall n | n in t ensures Spells(buf', patched', t[n], n, LabelCount(n)) {
      Survives(buf, patched, buf', patched', t[n], n, LabelCount(n), LabelCount(n));
    }
  }

  lemma SpellsLabel(buf: seq<byte>, patched: set<nat>, l: Label, up: Name, rest: seq<byte>, hops: nat)
    requires forall i :: i in patched ==> i < |buf|
    requires var out := buf + ([|l| as byte] + l) + rest; Spells(out, patched, |buf| + 1 + |l|, up, hops)
    ensures var out := buf + ([|l| as byte] + l) + rest;
            Spells(out, patched, |buf|, Sub(l, up), hops)
  {
    var out := buf + ([|l| as byte] + l) + rest;
    assert out[|buf|] == |l| as byte;
    assert out[|buf| + 1..|buf| + 1 + |l|] == l;
  }

  lemma SpellsPointer(buf: seq<byte>, patched: set<nat>, off: Offset, n: Name, hops: nat)
    requires forall i :: i in patched ==> i < |buf|
    requires Spells(buf + Pointer(off), patched, off, n, hops)
    ensures Spells(buf + Pointer(off), patched, |buf|, n, hops + 1)
  {
    var out := buf + Pointer(off);
    assert out[|buf|] == Pointer(off)[0] && out[|buf| + 1] == Pointer(off)[1];
    assert Target(out, |buf|) == off;
  }

  /** A label in front of a suffix already spelled makes a name that may enter the table. */
  lemma KeepsLabel(buf: seq<byte>, patched: set<nat>, t: Table, n: Name, rest: seq<byte>)
    requires forall i :: i in patched ==> i < |buf|
    requires n.Sub?
    requires var out := buf + ([|n.first| as byte] + n.first) + rest;
             && TableOk(out, patched, t)
             && Spells(out, patched, |buf| + 1 + |n.first|, n.parent, LabelCount(n))
    ensures var out := buf + ([|n.first| as byte] + n.first) + rest;
            && Spells(out, patched, |buf|, n, LabelCount(n))
            && Spells(out, patched, |buf|, n, LabelCount(n) + 1)
            && (|buf| <= MAX_POINTER_OFFSET ==> TableOk(out, patched, t[n := |buf|]))
  {
    var out := buf + ([|n.first| as byte] + n.first) + rest;
    SpellsLabel(buf, patched, n.first, n.parent, rest, LabelCount(n));
    Survives(out, patched, out, patched, |buf|, n, LabelCount(n), LabelCount(n) + 1);
  }

  /** The root octet, or a pointer to a suffix of the table, spells what it stands for. */
  lemma KeepsStop(buf: seq<byte>, patched: set<nat>, t: Table, n: Name)
    requires TableOk(buf, patched, t) && (forall i :: i in patched ==> i < |buf|)
    requires n == Root || n in t
    ensures var out := buf + NameBytes(t, n);
            TableOk(out, patched, t) && Spells(out, patched, |buf|, n, LabelCount(n) + 1)
            && (n == Root ==> Spells(out, patched, |buf|, n, 0))
  {
    var out := buf + NameBytes(t, n);
    TableSurvives(buf, patched, out, patched, t);
    if n == Root {
      assert out[|buf|] == 0;
    } else {
      SpellsPointer(buf, patched, t[n], n, LabelCount(n));
    }
  }

  /** Writing a name keeps the table invariant, and the new octets spell the name within one pointer
      more than it has labels. */
  lemma {:induction false} WriteNameKeeps(buf: seq<byte>, patched: set<nat>, t: Table, n: Name)
    requires TableOk(buf, patched, t)
    requires forall i :: i in patched ==> i < |buf|
    ensures var out := buf + NameBytes(t, n);
            && TableOk(out, patched, NameTable(t, |buf|, n))
            && Spells(out, patched, |buf|, n, LabelCount(n) + 1)
    decreases n
  {
    hide Spells, TableOk;
    if n == Root || n in t {
      KeepsStop(buf, patched, t, n);
    } else {
      var h := [|n.first| as byte] + n.first;
      TableSurvives(buf, patched, buf + h, patched, t);
      WriteNameKeeps(buf + h, patched, t, n.parent);
      var rest := NameBytes(t, n.parent);
      assert LabelCount(n) == 1 + LabelCount(n.parent);
      Associative(buf, h, rest);
      KeepsLabel(buf, patched, NameTable(t, |buf + h|, n.parent), n, rest);
    }
  }

  /** The end of a written name does not depend on what follows it. */
  lemma {:induction false} WriteNameEnd(t: Table, n: Name, buf: seq<byte>, p: nat)
    requires HoldsAt(buf, p, NameBytes(t, n))
    ensures EndOf(buf, p) == p + |NameBytes(t, n)|
    decreases n
  {
    assert buf[p] == buf[p..p + |NameBytes(t, n)|][0];
    if n != Root && n !in t {
      HoldsParts(buf, p, [|n.first| as byte] + n.first, NameBytes(t, n.parent));
      WriteNameEnd(t, n.parent, buf, p + 1 + |n.first|);
    }
  }

  lemma {:induction false} PlainEnd(buf: seq<byte>, p: nat, n: Name)
    requires HoldsAt(buf, p, Wire(n))
    ensures EndOf(buf, p) == p + |Wire(n)|
    decreases n
  {
    assert buf[p] == buf[p..p + |Wire(n)|][0];
    if n.Sub? {
      HoldsParts(buf, p, [|n.first| as byte] + n.first, Wire(n.parent));
      PlainEnd(buf, p + 1 + |n.first|, n.parent);
    }
  }

  /** Reading back what was written, whatever is appended or patched later: the name folded to lower
      case, and its end. */
  lemma WrittenNameReads(pre: seq<byte>, patched: set<nat>, t: Table, n: Name, buf: seq<byte>)
    requires TableOk(pre, patched, t) && (forall i :: i in patched ==> i < |pre|)
    requires WireLen(n) <= MAX_NAME_LEN && LabelCount(n) < MAX_LABELS
    requires pre + NameBytes(t, n) <= buf
    ensures NameAt(buf, |pre|) == Ok(Parsed(Canonical(n), |pre| + |NameBytes(t, n)|))
  {
    hide Walk, Spells, EndOf, NameBytes, NameTable, Canonical;
    var out := pre + NameBytes(t, n);
    WriteNameKeeps(pre, patched, t, n);
    Survives(out, patched, buf, {}, |pre|, n, LabelCount(n) + 1, LabelCount(n) + 1);
    WalkReadsSpelling(buf, {}, |pre|, n, LabelCount(n) + 1, 0, 1, 0);
    PrefixHolds(pre, NameBytes(t, n), buf);
    WriteNameEnd(t, n, buf, |pre|);
  }

  lemma {:induction false} PlainReads(buf: seq<byte>, at: nat, n: Name)
    requires HoldsAt(buf, at, Wire(n)) && WireLen(n) <= MAX_NAME_LEN && LabelCount(n) < MAX_LABELS
    ensures NameAt(buf, at) == Ok(Parsed(Canonical(n), at + |Wire(n)|))
  {
    PlainSpells(buf, {}, at, n);
    PlainEnd(buf, at, n);
    WalkReadsSpelling(buf, {}, at, n, 0, 0, 1, 0);
  }

  // ---------------------------------------------------------------------------------------------
  // The printer as the program runs it: enumerate the suffixes, find the longest one recorded, write
  // the labels before it and a pointer, then record those suffixes.

  /** A suffix and the octets of the name before it. */
  datatype Suffix = Suffix(name: Name, rel: nat)

  /** The suffixes of `n`, the root excepted, when `n` itself starts `rel` octets in. */
  function Suffixes(n: Name, rel: nat): seq<Suffix> {
    match n
    case Root => []
    case Sub(l, up) => [Suffix(n, rel)] + Suffixes(up, rel + 1 + |l|)
  }

  function Record(t: Table, base: nat, s: Suffix): Table {
    if base + s.rel <= MAX_POINTER_OFFSET && s.name !in t then t[s.name := base + s.rel] else t
  }

  function RecordAll(t: Table, base: nat, ss: seq<Suffix>): Table {
    if ss == [] then t else Record(RecordAll(t, base, ss[..|ss| - 1]), base, ss[|ss| - 1])
  }

  /** How many suffixes come before the first one in the table. */
  function Misses(t: Table, ss: seq<Suffix>): (k: nat)
    ensures k <= |ss|
  {
    if ss == [] || ss[0].name in t then 0 else 1 + Misses(t, ss[1..])
  }

  lemma {:induction false} RecordAllKeys(t: Table, base: nat, ss: seq<Suffix>, m: Name)
    requires m in RecordAll(t, base, ss)
    ensures m in t || exists i :: 0 <= i < |ss| && ss[i].name == m
  {
    if ss != [] && m != ss[|ss| - 1].name {
      RecordAllKeys(t, base, ss[..|ss| - 1], m);
    }
  }

  /** Recording a suffix first or last is the same, when nothing else records its name. */
  lemma {:induction false} RecordFirst(t: Table, base: nat, s: Suffix, ss: seq<Suffix>)
    requires forall i :: 0 <= i < |ss| ==> ss[i].name != s.name
    ensures RecordAll(t, base, [s] + ss) == Record(RecordAll(t, base, ss), base, s)
  {
    var all := [s] + ss;
    if ss == [] {
      assert all[..0] == [];
    } else {
      var k := |ss| - 1;
      assert all[..|all| - 1] == [s] + ss[..k];
      RecordFirst(t, base, s, ss[..k]);
    }
  }

  /** Recording a name in front of longer-recorded suffixes that are all different from it. */
  lemma RecordStep(t: Table, base: nat, s: Suffix, rest: seq<Suffix>, k: nat)
    requires k <= |rest| && s.name !in t
    requires forall i :: 0 <= i < k ==> rest[i].name != s.name
    ensures var t1 := RecordAll(t, base, rest[..k]);
            RecordAll(t, base, ([s] + rest)[..k + 1])
            == if base + s.rel <= MAX_POINTER_OFFSET then t1[s.name := base + s.rel] else t1
  {
    assert ([s] + rest)[..k + 1] == [s] + rest[..k];
    RecordFirst(t, base, s, rest[..k]);
    if s.name in RecordAll(t, base, rest[..k]) {
      RecordAllKeys(t, base, rest[..k], s.name);
    }
  }

  lemma {:induction false} SuffixesShrink(n: Name, rel: nat)
    ensures forall i :: 0 <= i < |Suffixes(n, rel)| ==> LabelCount(Suffixes(n, rel)[i].name) <= LabelCount(n)
  {
    if n.Sub? {
      SuffixesShrink(n.parent, rel + 1 + |n.first|);
    }
  }

  /** The recording loop fills the table that `NameTable` describes. */
  lemma {:induction false} RecordsNameTable(t: Table, base: nat, n: Name, rel: nat)
    ensures var ss := Suffixes(n, rel);
            RecordAll(t, base, ss[..Misses(t, ss)]) == NameTable(t, base + rel, n)
    decreases n
  {
    if n.Sub? && n !in t {
      var rel' := rel + 1 + |n.first|;
      var rest := Suffixes(n.parent, rel');
      var k := Misses(t, rest);
      assert Suffixes(n, rel) == [Suffix(n, rel)] + rest;
      assert LabelCount(n) > LabelCount(n.parent);
      hide Suffixes, Misses, RecordAll, LabelCount;
      MissesNext(t, Suffix(n, rel), rest);
      SuffixesShrink(n.parent, rel');
      RecordStep(t, base, Suffix(n, rel), rest, k);
      RecordsNameTable(t, base, n.parent, rel');
      assert base + rel' == base + rel + 1 + |n.first|;
    }
  }

  lemma MissesNext(t: Table, s: Suffix, rest: seq<Suffix>)
    requires s.name !in t
    ensures Misses(t, [s] + rest) == 1 + Misses(t, rest)
  {
    assert ([s] + rest)[1..] == rest;
  }

  /** The octets before the first recorded suffix, then a pointer to it, are the octets of the name. */
  lemma {:induction false} PrefixNameBytes(t: Table, n: Name, rel: nat)
    ensures var ss := Suffixes(n, rel); var i := Misses(t, ss);
            && (i < |ss| ==> rel <= ss[i].rel && ss[i].rel - rel <= |Wire(n)| && ss[i].name in t
                             && NameBytes(t, n) == Wire(n)[..ss[i].rel - rel] + Pointer(t[ss[i].name]))
            && (i == |ss| ==> NameBytes(t, n) == Wire(n))
    decreases n
  {
    if n.Sub? && n !in t {
      var ss := Suffixes(n, rel);
      var h := [|n.first| as byte] + n.first;
      assert ss[1..] == Suffixes(n.parent, rel + |h|);
      PrefixNameBytes(t, n.parent, rel + |h|);
      var i := Misses(t, ss);
      if i < |ss| {
        PrefixLonger(h, Wire(n.parent), ss[i].rel - rel - |h|, Pointer(t[ss[i].name]));
      }
    }
  }

  lemma PrefixLonger(h: seq<byte>, w: seq<byte>, k: nat, p: seq<byte>)
    requires k <= |w|
    ensures h + (w[..k] + p) == (h + w)[..|h| + k] + p
  {
  }

  class NameCompressor {
    var offsets: Table

    constructor ()
      ensures offsets == map[]
    {
      offsets := map[];
    }

    /** `NameCompressor::write`. */
    method Write(name: Name, out: Buffer)
      modifies this, out
      ensures out.data == old(out.data) + NameBytes(old(offsets), name)
      ensures offsets == NameTable(old(offsets), |old(out.data)|, name)
      ensures name != Root && |old(out.data)| <= 0x3fff ==> name in offsets
    {
      var suffixes := Enumerate(name);
      var i := 0;
      while i < |suffixes| && suffixes[i].name !in offsets
        invariant 0 <= i <= |suffixes|
        invariant Misses(offsets, suffixes) == i + Misses(offsets, suffixes[i..])
      {
        assert suffixes[i..][1..] == suffixes[i + 1..];
        i := i + 1;
      }
      PrefixNameBytes(offsets, name, 0);
      RecordsNameTable(offsets, |out.data|, name, 0);
      var base := |out.data|;
      if i == |suffixes| {
        out.Extend(Wire(name));
      } else {
        out.Extend(Wire(name)[..suffixes[i].rel] + Pointer(offsets[suffixes[i].name]));
      }
      RecordPrefix(base, suffixes[..i]);
    }

    /** Records the offset of each suffix a pointer can reach, keeping earlier entries. */
    method RecordPrefix(base: nat, suffixes: seq<Suffix>)
      modifies this
      ensures offsets == RecordAll(old(offsets), base, suffixes)
      ensures forall i :: 0 <= i < |suffixes| && base + suffixes[i].rel <= 0x3fff ==> suffixes[i].name in offsets
    {
      for k := 0 to |suffixes|
        invariant forall i :: 0 <= i < k && base + suffixes[i].rel <= 0x3fff ==> suffixes[i].name in offsets
        invariant offsets == RecordAll(old(offsets), base, suffixes[..k])
      {
        assert suffixes[..k + 1][..k] == suffixes[..k];
        var abs := base + suffixes[k].rel;
        if abs <= MAX_POINTER_OFFSET && suffixes[k].name !in offsets {
          offsets := offsets[suffixes[k].name := abs];
        }
      }
      assert suffixes[..|suffixes|] == suffixes;
    }
  }

  /** The suffixes of `name`, longest first, each with its offset inside the name. */
  method Enumerate(name: Name) returns (suffixes: seq<Suffix>)
    ensures suffixes == Suffixes(name, 0)
  {
    suffixes := [];
    var cur, total := name, WireLen(name);
    while cur != Root
      invariant WireLen(cur) <= total
      invariant Suffixes(name, 0) == suffixes + Suffixes(cur, total - WireLen(cur))
      decreases cur
    {
      suffixes := suffixes + [Suffix(cur, total - WireLen(cur))];
      cur := cur.parent;
    }
  }
}
