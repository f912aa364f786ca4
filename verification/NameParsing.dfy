/** What the pointer-chasing parser accepts, on arbitrary octets (src/name.rs). */
module NameParsing {
  import opened Octets
  import opened Names
  import opened Compressor

  /** Whatever the octets are, an accepted name is in lower case, has at most 255 octets and 126 labels,
      ends after its start and inside the message, and its uncompressed form parses to itself. */
  lemma AcceptedName(buf: seq<byte>, pos: nat)
    requires NameAt(buf, pos).Ok?
    ensures var Parsed(n, end) := NameAt(buf, pos).value;
            && LowerCase(n) && |Wire(n)| <= 255 && LabelCount(n) <= 126
            && pos < end <= |buf|
            && NameAt(Wire(n), 0) == Ok(Parsed(n, |Wire(n)|))
  {
    var n := Walk(buf, pos, 0, 1, 0).value;
    WalkBounds(buf, pos, 0, 1, 0);
    CanonicalKeepsShape(n);
    CanonicalKeepsShape(Canonical(n));
    WireLenIs(Canonical(n));
    TakeAll(Wire(Canonical(n)));
    PlainReads(Wire(Canonical(n)), 0, Canonical(n));
  }

  lemma PlainPeek(buf: seq<byte>, p: nat, n: Name)
    requires HoldsAt(buf, p, Wire(n))
    ensures Peek(buf, p) == if n == Root then RootHere else LabelHere(n.first)
    ensures n.Sub? ==> HoldsAt(buf, p + 1 + |n.first|, Wire(n.parent))
  {
    if n.Sub? {
      HoldsParts(buf, p, [|n.first| as byte] + n.first, Wire(n.parent));
      HoldsParts(buf, p, [|n.first| as byte], n.first);
      HoldsOne(buf, p, |n.first| as byte);
    } else {
      HoldsOne(buf, p, 0);
    }
  }

  lemma {:induction false} TooLong(buf: seq<byte>, p: nat, n: Name, total: nat, count: nat)
    requires HoldsAt(buf, p, Wire(n)) && total <= MAX_NAME_LEN && total + WireLen(n) - 1 > MAX_NAME_LEN
    ensures Walk(buf, p, 0, total, count).Err?
    decreases n
  {
    hide HoldsAt, Peek, Wire;
    PlainPeek(buf, p, n);
    if n.Sub? && total + 1 + |n.first| <= MAX_NAME_LEN {
      TooLong(buf, p + 1 + |n.first|, n.parent, total + 1 + |n.first|, count + 1);
    }
  }

  lemma {:induction false} LabelsTakeOctets(n: Name)
    ensures WireLen(n) >= 1 + 2 * LabelCount(n)
  {
    if n.Sub? {
      LabelsTakeOctets(n.parent);
    }
  }

  /** An uncompressed name is read back, folded to lower case, if and only if it has at most 255 octets and
      126 labels. */
  lemma PlainDecides(n: Name)
    ensures NameAt(Wire(n), 0).Ok? <==> WireLen(n) <= 255 && LabelCount(n) <= 126
    ensures NameAt(Wire(n), 0).Ok? ==> NameAt(Wire(n), 0) == Ok(Parsed(Canonical(n), |Wire(n)|))
  {
    hide Walk, Spells, EndOf, Wire, Canonical;
    TakeAll(Wire(n));
    PlainEnd(Wire(n), 0, n);
    LabelsTakeOctets(n);
    if WireLen(n) > MAX_NAME_LEN {
      TooLong(Wire(n), 0, n, 1, 0);
    } else {
      PlainSpells(Wire(n), {}, 0, n);
      WalkReadsSpelling(Wire(n), {}, 0, n, 0, 0, 1, 0);
    }
  }

  /** What the parser reads is what the octets spell, within the hops it had left. */
  lemma {:induction false} WalkSpells(buf: seq<byte>, p: nat, hops: nat, total: nat, count: nat)
    requires hops <= MAX_POINTER_HOPS && total <= MAX_NAME_LEN && Walk(buf, p, hops, total, count).Ok?
    ensures Spells(buf, {}, p, Walk(buf, p, hops, total, count).value, MAX_POINTER_HOPS - hops)
    decreases MAX_POINTER_HOPS - hops, MAX_NAME_LEN - total
  {
    match Peek(buf, p)
    case RootHere =>
    case LabelHere(l) => WalkSpells(buf, p + 1 + |l|, hops, total + 1 + |l|, count + 1);
    case PointerHere(off) => WalkSpells(buf, off, hops + 1, total, count);
  }

  ghost predicate Readable(buf: seq<byte>, pos: nat, n: Name) {
    Spells(buf, {}, pos, n, 128) && WireLen(n) <= 255 && LabelCount(n) <= 126
  }

  /** Exactly the names spelled within 128 pointers, 255 octets and 126 labels are accepted, wherever the
      pointers lead: forwards, backwards or in circles. */
  lemma AcceptedIff(buf: seq<byte>, pos: nat, m: Name)
    ensures NameAt(buf, pos) == Ok(Parsed(m, EndOf(buf, pos))) <==>
            exists n :: Readable(buf, pos, n) && Canonical(n) == m
  {
    if NameAt(buf, pos).Ok? {
      var n := Walk(buf, pos, 0, 1, 0).value;
      WalkBounds(buf, pos, 0, 1, 0);
      WalkSpells(buf, pos, 0, 1, 0);
      assert Readable(buf, pos, n);
    }
    forall n | Readable(buf, pos, n) ensures NameAt(buf, pos) == Ok(Parsed(Canonical(n), EndOf(buf, pos))) {
      WalkReadsSpelling(buf, {}, pos, n, MAX_POINTER_HOPS, 0, 1, 0);
    }
  }

  // ---------------------------------------------------------------------------------------------
  // The hop limit. The constant is justified by "every hop adds at least two octets", which needs that a
  // pointer leads to a label or the root and not to another pointer.

  ghost predicate PointersLand(buf: seq<byte>) {
    forall p: nat :: Peek(buf, p).PointerHere? ==> !Peek(buf, Peek(buf, p).target).PointerHere?
  }

  /** Then a name needs at most one pointer more than it has labels, so the limit never rejects a name
      that the octets spell at all. */
  lemma {:induction false} LandingNeedsFewHops(buf: seq<byte>, p: nat, n: Name, hops: nat)
    requires PointersLand(buf) && Spells(buf, {}, p, n, hops)
    ensures Spells(buf, {}, p, n, LabelCount(n) + if buf[p] < 64 then 0 else 1)
    decreases hops, n
  {
    if buf[p] < 64 {
      if n.Sub? {
        var next := p + 1 + |n.first|;
        LandingNeedsFewHops(buf, next, n.parent, hops);
        MoreHops(buf, next, n.parent, LabelCount(n.parent) + (if buf[next] < 64 then 0 else 1), LabelCount(n));
      }
    } else {
      assert Peek(buf, p) == PointerHere(Target(buf, p));
      assert buf[Target(buf, p)] < 64 by {
        SpelledPeek(buf, Target(buf, p), n, hops - 1);
      }
      LandingNeedsFewHops(buf, Target(buf, p), n, hops - 1);
    }
  }

  lemma SpelledPeek(buf: seq<byte>, p: nat, n: Name, hops: nat)
    requires Spells(buf, {}, p, n, hops) && !Peek(buf, p).PointerHere?
    ensures buf[p] < 64
  {
  }

  lemma MoreHops(buf: seq<byte>, p: nat, n: Name, hops: nat, hops': nat)
    requires Spells(buf, {}, p, n, hops) && hops <= hops'
    ensures Spells(buf, {}, p, n, hops')
  {
    Survives(buf, {}, buf, {}, p, n, hops, hops');
  }

  lemma LandingIsAccepted(buf: seq<byte>, pos: nat, n: Name, hops: nat)
    requires PointersLand(buf) && Spells(buf, {}, pos, n, hops)
    requires WireLen(n) <= 255 && LabelCount(n) <= 126
    ensures NameAt(buf, pos) == Ok(Parsed(Canonical(n), EndOf(buf, pos)))
  {
    LandingNeedsFewHops(buf, pos, n, hops);
    MoreHops(buf, pos, n, LabelCount(n) + (if buf[pos] < 64 then 0 else 1), MAX_POINTER_HOPS);
    assert Readable(buf, pos, n);
    AcceptedIff(buf, pos, Canonical(n));
  }

  /** `k` pointers, each to the next, the last to a root octet. */
  function Chain(k: nat): (b: seq<byte>)
    requires k <= 0x1fff
    ensures |b| == 2 * k + 1
  {
    seq(2 * k + 1, i requires 0 <= i <= 2 * k =>
      if i == 2 * k then 0 as byte
      else if i % 2 == 0 then (192 + (i + 2) / 0x100) as byte
      else ((i + 1) % 0x100) as byte)
  }

  lemma ChainStep(k: nat, j: nat)
    requires j <= k <= 0x1fff
    ensures Peek(Chain(k), 2 * j) == if j < k then PointerHere(2 * j + 2) else RootHere
  {
    if j < k {
      var hi, lo := Chain(k)[2 * j], Chain(k)[2 * j + 1];
      assert hi == (192 + (2 * j + 2) / 0x100) as byte && lo == ((2 * j + 2) % 0x100) as byte;
    }
  }

  lemma {:induction false} ChainWalk(k: nat, j: nat, hops: nat)
    requires j <= k <= 0x1fff && hops <= MAX_POINTER_HOPS
    ensures Walk(Chain(k), 2 * j, hops, 1, 0) == if hops + (k - j) <= MAX_POINTER_HOPS then Ok(Root) else Err(Malformed)
    decreases k - j
  {
    ChainStep(k, j);
    if j < k && hops < MAX_POINTER_HOPS {
      ChainWalk(k, j + 1, hops + 1);
    }
  }

  /** A chain of pointers spells the root name, one octet long, whatever its length; it is accepted up to
      128 pointers and refused from 129 on. */
  lemma ChainIsCutOff(k: nat)
    requires k <= 0x1fff
    ensures Spells(Chain(k), {}, 0, Root, k)
    ensures NameAt(Chain(k), 0).Ok? <==> k <= 128
  {
    ChainWalk(k, 0, 0);
    ChainSpells(k, 0);
  }

  lemma {:induction false} ChainSpells(k: nat, j: nat)
    requires j <= k <= 0x1fff
    ensures Spells(Chain(k), {}, 2 * j, Root, k - j)
    decreases k - j
  {
    ChainStep(k, j);
    if j < k {
      ChainSpells(k, j + 1);
    }
  }
}
