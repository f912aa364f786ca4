/** Domain names in wire form and the pointer-chasing parser (src/name.rs). */
module Names {
  import opened Octets

  const MAX_NAME_LEN: nat := 255
  const MAX_LABELS: nat := 127
  const MAX_POINTER_HOPS: nat := MAX_LABELS + 1

  type Label = l: seq<byte> | 0 < |l| < 64 witness [0]

  /** A name: its labels from left to right, down to the root. `Wire` is the form the program stores.
      The letter case is free: 0x20 randomization builds mixed-case names, and the parser folds them. */
  datatype Name = Root | Sub(first: Label, parent: Name)

  /** `[len][label]...[len][label] 0`: the uncompressed wire form. */
  function Wire(n: Name): (w: seq<byte>)
    ensures |w| > 0
  {
    match n
    case Root => [0]
    case Sub(l, up) => [|l| as byte] + l + Wire(up)
  }

  function WireLen(n: Name): (k: nat)
    ensures k > 0
  {
    match n
    case Root => 1
    case Sub(l, up) => 1 + |l| + WireLen(up)
  }

  lemma {:induction false} WireLenIs(n: Name)
    ensures |Wire(n)| == WireLen(n)
  {
    if n.Sub? {
      WireLenIs(n.parent);
    }
  }

  /** The wire form determines the name, so a table keyed by wire forms is a table keyed by names. */
  lemma {:induction false} WireInjective(m: Name, n: Name)
    requires Wire(m) == Wire(n)
    ensures m == n
  {
    assert Wire(m)[0] == Wire(n)[0];
    if m.Sub? {
      var k := |m.first|;
      assert m.first == Wire(m)[1..1 + k] == n.first;
      assert Wire(m.parent) == Wire(m)[1 + k..] == Wire(n.parent);
      WireInjective(m.parent, n.parent);
    }
  }

  function LabelCount(n: Name): nat {
    match n
    case Root => 0
    case Sub(_, up) => 1 + LabelCount(up)
  }

  function Lower(b: byte): byte {
    if 65 <= b <= 90 then b + 32 else b
  }

  function LowerAll(s: seq<byte>): (r: seq<byte>)
    ensures |r| == |s|
  {
    if s == [] then [] else [Lower(s[0])] + LowerAll(s[1..])
  }

  lemma {:induction false} LowerTwice(s: seq<byte>)
    ensures LowerAll(LowerAll(s)) == LowerAll(s)
  {
    if s != [] {
      LowerTwice(s[1..]);
    }
  }

  function Canonical(n: Name): Name {
    match n
    case Root => Root
    case Sub(l, up) => Sub(LowerAll(l), Canonical(up))
  }

  ghost predicate LowerCase(n: Name) {
    n.Sub? ==> LowerAll(n.first) == n.first && LowerCase(n.parent)
  }

  lemma {:induction false} CanonicalKeepsShape(n: Name)
    ensures WireLen(Canonical(n)) == WireLen(n) && LabelCount(Canonical(n)) == LabelCount(n)
    ensures LowerCase(Canonical(n))
    ensures LowerCase(n) <==> Canonical(n) == n
  {
    if n.Sub? {
      CanonicalKeepsShape(n.parent);
      LowerTwice(n.first);
    }
  }

  lemma {:induction false} LowerParts(a: seq<byte>, b: seq<byte>)
    ensures LowerAll(a + b) == LowerAll(a) + LowerAll(b)
  {
    if a == [] {
      assert a + b == b;
    } else {
      assert (a + b)[0] == a[0] && (a + b)[1..] == a[1..] + b;
      LowerParts(a[1..], b);
    }
  }

  /** Length octets are below 64, so folding the whole wire form folds exactly the labels. */
  lemma {:induction false} FoldWire(n: Name)
    ensures LowerAll(Wire(n)) == Wire(Canonical(n))
  {
    match n
    case Root => assert LowerAll([0]) == [Lower(0)] + LowerAll([]);
    case Sub(l, up) =>
      FoldWire(up);
      LowerParts([|l| as byte] + l, Wire(up));
      LowerParts([|l| as byte], l);
      assert LowerAll([|l| as byte]) == [Lower(|l| as byte)] + LowerAll([]);
  }

  // ---------------------------------------------------------------------------------------------
  // Parsing

  /** The offset a compression pointer at `p` encodes (section 4.1.4 of RFC 1035). */
  function Target(buf: seq<byte>, p: nat): nat
    requires p + 1 < |buf| && 192 <= buf[p]
  {
    (buf[p] as int - 192) * 0x100 + buf[p + 1] as int
  }

  /** What stands at one position of a name. */
  datatype Element = RootHere | LabelHere(octets: Label) | PointerHere(target: nat) | Unreadable

  /** The top two bits of the octet at `p` tell a label from a pointer; anything that is not all there,
      and a pointer outside the message, is unreadable. */
  function Peek(buf: seq<byte>, p: nat): Element {
    if p >= |buf| then Unreadable
    else
      var len := buf[p] as int;
      if len == 0 then RootHere
      else if len < 64 then
        if p + 1 + len > |buf| then Unreadable else LabelHere(buf[p + 1..p + 1 + len])
      else if len < 192 then Unreadable
      else if p + 1 >= |buf| || Target(buf, p) >= |buf| then Unreadable
      else PointerHere(Target(buf, p))
  }

  /** The name at `p` as spelled there, before case folding, read after `hops` jumps, `total` octets
      (counting the root) and `count` labels. */
  function Walk(buf: seq<byte>, p: nat, hops: nat, total: nat, count: nat): Result<Name>
    requires hops <= MAX_POINTER_HOPS && total <= MAX_NAME_LEN
    decreases MAX_POINTER_HOPS - hops, MAX_NAME_LEN - total
  {
    match Peek(buf, p)
    case Unreadable => Err(Malformed)
    case RootHere => Ok(Root)
    case LabelHere(l) =>
      if total + 1 + |l| > MAX_NAME_LEN || count >= MAX_LABELS then Err(Malformed)
      else
        (match Walk(buf, p + 1 + |l|, hops, total + 1 + |l|, count + 1)
         case Err(e) => Err(e)
         case Ok(up) => Ok(Sub(l, up)))
    case PointerHere(off) =>
      if hops >= MAX_POINTER_HOPS then Err(Malformed) else Walk(buf, off, hops + 1, total, count)
  }

  /** Just past the name that starts at `p`: past its root octet, or past its first pointer. */
  function EndOf(buf: seq<byte>, p: nat): nat
    decreases |buf| - p
  {
    if p >= |buf| then p
    else if buf[p] == 0 then p + 1
    else if buf[p] < 64 then EndOf(buf, p + 1 + buf[p] as int)
    else p + 2
  }

  /** A parsed name and the position just past its encoding. */
  datatype Parsed = Parsed(name: Name, end: nat)

  /** What `Name::from_wire` computes. The label limit is tested once more after the loop, so 127
      labels are refused there although the test inside the loop admits them. */
  function NameAt(buf: seq<byte>, pos: nat): Result<Parsed> {
    match Walk(buf, pos, 0, 1, 0)
    case Err(e) => Err(e)
    case Ok(n) =>
      if LabelCount(n) >= MAX_LABELS then Err(Malformed) else Ok(Parsed(Canonical(n), EndOf(buf, pos)))
  }

  lemma {:induction false} WalkBounds(buf: seq<byte>, p: nat, hops: nat, total: nat, count: nat)
    requires hops <= MAX_POINTER_HOPS && total <= MAX_NAME_LEN
    requires Walk(buf, p, hops, total, count).Ok?
    ensures var n := Walk(buf, p, hops, total, count).value;
            total + WireLen(n) - 1 <= MAX_NAME_LEN
            && (count <= MAX_LABELS ==> count + LabelCount(n) <= MAX_LABELS)
    ensures p < EndOf(buf, p) <= |buf|
    decreases MAX_POINTER_HOPS - hops, MAX_NAME_LEN - total
  {
    match Peek(buf, p)
    case RootHere =>
    case LabelHere(l) =>
      WalkBounds(buf, p + 1 + |l|, hops, total + 1 + |l|, count + 1);
    case PointerHere(off) =>
      WalkBounds(buf, off, hops + 1, total, count);
  }

  function LabelsOf(n: Name): seq<Label> {
    match n
    case Root => []
    case Sub(l, up) => [l] + LabelsOf(up)
  }

  /** The walk of the loop in `Name::from_wire`: the same steps, collecting the labels on the way. */
  function Collect(buf: seq<byte>, p: nat, hops: nat, total: nat, done: seq<Label>): Result<seq<Label>>
    requires hops <= MAX_POINTER_HOPS && total <= MAX_NAME_LEN
    decreases MAX_POINTER_HOPS - hops, MAX_NAME_LEN - total
  {
    match Peek(buf, p)
    case Unreadable => Err(Malformed)
    case RootHere => Ok(done)
    case LabelHere(l) =>
      if total + 1 + |l| > MAX_NAME_LEN || |done| >= MAX_LABELS then Err(Malformed)
      else Collect(buf, p + 1 + |l|, hops, total + 1 + |l|, done + [l])
    case PointerHere(off) =>
      if hops >= MAX_POINTER_HOPS then Err(Malformed) else Collect(buf, off, hops + 1, total, done)
  }

  lemma {:induction false} CollectWalks(buf: seq<byte>, p: nat, hops: nat, total: nat, done: seq<Label>)
    requires hops <= MAX_POINTER_HOPS && total <= MAX_NAME_LEN
    ensures Collect(buf, p, hops, total, done)
            == match Walk(buf, p, hops, total, |done|)
               case Err(e) => Err(e)
               case Ok(n) => Ok(done + LabelsOf(n))
    decreases MAX_POINTER_HOPS - hops, MAX_NAME_LEN - total
  {
    hide Peek;
    match Peek(buf, p)
    case Unreadable =>
    case RootHere => assert done + [] == done;
    case LabelHere(l) =>
      if total + 1 + |l| <= MAX_NAME_LEN && |done| < MAX_LABELS {
        CollectWalks(buf, p + 1 + |l|, hops, total + 1 + |l|, done + [l]);
        var up := Walk(buf, p + 1 + |l|, hops, total + 1 + |l|, |done| + 1);
        if up.Ok? {
          assert done + [l] + LabelsOf(up.value) == done + ([l] + LabelsOf(up.value));
        }
      }
    case PointerHere(off) =>
      if hops < MAX_POINTER_HOPS {
        CollectWalks(buf, off, hops + 1, total, done);
      }
  }

  /** The loop of `Name::from_wire`: jumps wherever a pointer leads, bounded by hops and octets. */
  method ReadLabels(buf: seq<byte>, pos: nat) returns (ok: bool, labels: seq<Label>, end: nat)
    ensures Collect(buf, pos, 0, 1, []) == if ok then Ok(labels) else Err(Malformed)
    ensures ok ==> end == EndOf(buf, pos)
  {
    ok, labels, end := false, [], pos;
    var p: nat, jumped := pos, false;
    var hops: nat, total: nat := 0, 1;
    ghost var stop := EndOf(buf, pos);
    while true
      invariant hops <= MAX_POINTER_HOPS && 1 <= total <= MAX_NAME_LEN
      invariant Collect(buf, pos, 0, 1, []) == Collect(buf, p, hops, total, labels)
      invariant stop == if jumped then end else EndOf(buf, p)
      decreases MAX_POINTER_HOPS - hops, MAX_NAME_LEN - total
    {
      match Peek(buf, p) {
        case Unreadable =>
          return;
        case RootHere =>
          ok := true;
          if !jumped {
            end := p + 1;
          }
          return;
        case LabelHere(l) =>
          if total + 1 + |l| > MAX_NAME_LEN || |labels| >= MAX_LABELS {
            return;
          }
          labels, p, total := labels + [l], p + 1 + |l|, total + 1 + |l|;
        case PointerHere(off) =>
          if hops >= MAX_POINTER_HOPS {
            return;
          }
          if !jumped {
            end, jumped := p + 2, true;
          }
          p, hops := off, hops + 1;
      }
    }
  }

  /** Writes `[len][label]...` and the root octet. */
  method Assemble(labels: seq<Label>, ghost n: Name) returns (out: seq<byte>)
    requires labels == LabelsOf(n)
    ensures out == Wire(n)
  {
    out := [];
    ghost var left := n;
    for i := 0 to |labels|
      invariant LabelsOf(left) == labels[i..] && Wire(n) == out + Wire(left)
    {
      assert LabelsOf(left)[0] == labels[i];
      assert LabelsOf(left)[1..] == labels[i + 1..];
      AppendLabel(out, labels[i], left.parent);
      out := out + [|labels[i]| as byte] + labels[i];
      left := left.parent;
    }
    out := out + [0];
  }

  lemma AppendLabel(out: seq<byte>, l: Label, up: Name)
    ensures out + Wire(Sub(l, up)) == out + [|l| as byte] + l + Wire(up)
  {
  }

  lemma {:induction false} LabelCountIs(n: Name)
    ensures |LabelsOf(n)| == LabelCount(n)
  {
    if n.Sub? {
      LabelCountIs(n.parent);
    }
  }

  /** `Name::from_wire`: the stored octets of the name at `pos` and the position past its encoding. */
  method FromWire(buf: seq<byte>, pos: nat) returns (r: Result<(seq<byte>, nat)>)
    ensures match NameAt(buf, pos)
            case Err(e) => r == Err(e)
            case Ok(parsed) => r == Ok((Wire(parsed.name), parsed.end))
  {
    if pos >= |buf| {
      return Err(Malformed);
    }
    var ok, labels, end := ReadLabels(buf, pos);
    CollectWalks(buf, pos, 0, 1, []);
    ghost var w := Walk(buf, pos, 0, 1, 0);
    if !ok {
      return Err(Malformed);
    }
    assert labels == LabelsOf(w.value);
    LabelCountIs(w.value);
    if |labels| >= MAX_LABELS {
      return Err(Malformed);
    }
    var out := Assemble(labels, w.value);
    FoldWire(w.value);
    r := Ok((LowerAll(out), end));
  }
}
