/** Suffixes of names: the byte test of the program against label suffixes, and DNAME substitution
    (section 2.2 of RFC 6672; src/name.rs, src/engine.rs). */
module Suffix {
  import opened Octets
  import opened Names
  import opened NameParsing

  /** `Name::is_subdomain_of`: one wire form ends with the other. */
  predicate IsSubdomainOf(n: Name, o: Name) {
    |Wire(o)| <= |Wire(n)| && Wire(n)[|Wire(n)| - |Wire(o)|..] == Wire(o)
  }

  /** `o` is `n` without some of its leading labels. */
  predicate LabelSuffix(n: Name, o: Name) {
    n == o || (n.Sub? && LabelSuffix(n.parent, o))
  }

  /** Some label of `n` starts `d` octets in, or its root does. */
  predicate OnBoundary(n: Name, d: nat) {
    d == 0 || (n.Sub? && 1 + |n.first| <= d && OnBoundary(n.parent, d - 1 - |n.first|))
  }

  function Under(kept: seq<Label>, n: Name): Name {
    if kept == [] then n else Sub(kept[0], Under(kept[1..], n))
  }

  lemma DropWire(n: Name, d: nat)
    requires n.Sub? && 1 + |n.first| <= d <= |Wire(n)|
    ensures d - 1 - |n.first| <= |Wire(n.parent)| && Wire(n)[d..] == Wire(n.parent)[d - 1 - |n.first|..]
  {
  }

  /** A label suffix always passes the byte test, on a label boundary. */
  lemma {:induction false} LabelSuffixEndsWith(n: Name, o: Name)
    requires LabelSuffix(n, o)
    ensures IsSubdomainOf(n, o) && OnBoundary(n, |Wire(n)| - |Wire(o)|)
  {
    if n != o {
      LabelSuffixEndsWith(n.parent, o);
      DropWire(n, |Wire(n)| - |Wire(o)|);
    }
  }

  lemma {:induction false} BoundaryIsLabelSuffix(n: Name, o: Name, d: nat)
    requires OnBoundary(n, d) && d <= |Wire(n)| && Wire(n)[d..] == Wire(o)
    ensures LabelSuffix(n, o)
  {
    if d == 0 {
      assert Wire(n)[0..] == Wire(n);
      WireInjective(n, o);
    } else {
      DropWire(n, d);
      BoundaryIsLabelSuffix(n.parent, o, d - 1 - |n.first|);
    }
  }

  /** The byte test is the label test exactly when the cut falls on a label boundary. */
  lemma SuffixTests(n: Name, o: Name)
    ensures LabelSuffix(n, o) <==> IsSubdomainOf(n, o) && OnBoundary(n, |Wire(n)| - |Wire(o)|)
  {
    if LabelSuffix(n, o) {
      LabelSuffixEndsWith(n, o);
    } else if IsSubdomainOf(n, o) && OnBoundary(n, |Wire(n)| - |Wire(o)|) {
      BoundaryIsLabelSuffix(n, o, |Wire(n)| - |Wire(o)|);
    }
  }

  /** The octet `x` is in no label of `n`. */
  predicate NoLabelHas(n: Name, x: byte) {
    n.Sub? ==> x !in n.first && NoLabelHas(n.parent, x)
  }

  lemma OctetsOf(n: Name, d: nat)
    requires n.Sub? && 0 < d < |Wire(n)|
    ensures Wire(n)[d] == if d <= |n.first| then n.first[d - 1] else Wire(n.parent)[d - 1 - |n.first|]
  {
  }

  lemma {:induction false} CutsAtLength(n: Name, d: nat, x: byte)
    requires d < |Wire(n)| && Wire(n)[d] == x && NoLabelHas(n, x) && (x == 0 ==> d == |Wire(n)| - 1)
    ensures OnBoundary(n, d)
  {
    if n.Sub? && d > 0 {
      OctetsOf(n, d);
      CutsAtLength(n.parent, d - 1 - |n.first|, x);
    }
  }

  lemma {:induction false} EndsAtRoot(n: Name)
    ensures Wire(n)[|Wire(n)| - 1] == 0 && OnBoundary(n, |Wire(n)| - 1)
  {
    if n.Sub? {
      EndsAtRoot(n.parent);
    }
  }

  /** Below the root always; below `o` whenever no label octet of `n` looks like the length of the first
      label of `o`. Octets in 1..=63 can: digits and the hyphen among them. */
  lemma ByteTestIsLabelTest(n: Name, o: Name)
    requires o.Sub? ==> NoLabelHas(n, |o.first| as byte)
    ensures IsSubdomainOf(n, o) <==> LabelSuffix(n, o)
  {
    SuffixTests(n, o);
    if IsSubdomainOf(n, o) {
      var d := |Wire(n)| - |Wire(o)|;
      assert Wire(n)[d] == Wire(n)[d..][0] == Wire(o)[0];
      if o.Sub? {
        CutsAtLength(n, d, |o.first| as byte);
      } else {
        EndsAtRoot(n);
      }
    }
  }

  function Repeat(x: byte, k: nat): (s: seq<byte>)
    ensures |s| == k && forall i :: 0 <= i < k ==> s[i] == x
  {
    seq(k, _ => x)
  }

  /** A hyphen in front of 45 letters looks like a label of 45 letters. */
  lemma LookalikeSuffix() returns (n: Name, o: Name)
    ensures IsSubdomainOf(n, o) && !LabelSuffix(n, o) && LabelCount(n) == LabelCount(o) == 1
  {
    var letters := Repeat(97, 45);
    n, o := Sub([45] + letters, Root), Sub(letters, Root);
    assert Wire(o) == [45] + letters + [0];
    assert Wire(n) == [46] + ([45] + letters) + [0];
    assert Wire(n)[1..] == Wire(o);
  }

  // ---------------------------------------------------------------------------------------------
  // DNAME

  /** How many leading labels of `q` are kept: the difference of the counts, never negative. */
  function KeptLabels(q: Name, owner: Name): (k: nat)
    ensures k <= LabelCount(q)
  {
    if LabelCount(q) < LabelCount(owner) then 0 else LabelCount(q) - LabelCount(owner)
  }

  function Substituted(q: Name, owner: Name, target: Name): Name {
    LabelCountIs(q);
    Under(LabelsOf(q)[..KeptLabels(q, owner)], target)
  }

  /** `synthesize_dname_cname`. */
  function Synthesize(q: Name, owner: Name, target: Name): Option<Name> {
    if q == owner || !IsSubdomainOf(q, owner) then None
    else
      match NameAt(Wire(Substituted(q, owner, target)), 0)
      case Err(_) => None
      case Ok(p) => Some(p.name)
  }

  lemma {:induction false} UnderSplits(q: Name, owner: Name)
    requires LabelSuffix(q, owner)
    ensures LabelCount(owner) <= LabelCount(q) == |LabelsOf(q)|
    ensures Under(LabelsOf(q)[..KeptLabels(q, owner)], owner) == q
  {
    LabelCountIs(q);
    if q != owner {
      UnderSplits(q.parent, owner);
      assert LabelsOf(q)[..KeptLabels(q, owner)] == [q.first] + LabelsOf(q.parent)[..KeptLabels(q.parent, owner)];
    }
  }

  /** For a name strictly below the owner by labels, the owner's labels, and only they, are replaced by
      the target's; the answer is missing exactly when the result is too long for a name. `AnsweredOutside`
      says when any other name is answered. */
  lemma SubstitutionIsExact(q: Name, owner: Name, target: Name)
    ensures LabelSuffix(q, owner) ==>
              exists kept :: q == Under(kept, owner) && Substituted(q, owner, target) == Under(kept, target)
    ensures Synthesize(q, owner, target)
            == var n := Substituted(q, owner, target);
               if q != owner && IsSubdomainOf(q, owner) && WireLen(n) <= 255 && LabelCount(n) <= 126
               then Some(Canonical(n)) else None
  {
    PlainDecides(Substituted(q, owner, target));
    if LabelSuffix(q, owner) {
      UnderSplits(q, owner);
    }
  }

  /** Exactly when a name that is not below the owner by labels is answered all the same: it passes the
      byte test off a label boundary, and the name the label counts make of it is not too long. */
  lemma AnsweredOutside(q: Name, owner: Name, target: Name)
    ensures Synthesize(q, owner, target).Some? && !LabelSuffix(q, owner) <==>
            && IsSubdomainOf(q, owner) && !OnBoundary(q, |Wire(q)| - |Wire(owner)|)
            && WireLen(Substituted(q, owner, target)) <= 255
            && LabelCount(Substituted(q, owner, target)) <= 126
  {
    SuffixTests(q, owner);
    SubstitutionIsExact(q, owner, target);
    hide Synthesize, Substituted, IsSubdomainOf, OnBoundary;
    if q == owner {
      assert LabelSuffix(q, owner);
    }
  }

  /** For every target that is a name, a question outside the owner's subtree is answered with it. */
  lemma LookalikeAnswered(target: Name) returns (q: Name, owner: Name)
    requires WireLen(target) <= 255 && LabelCount(target) <= 126
    ensures !LabelSuffix(q, owner) && Synthesize(q, owner, target) == Some(Canonical(target))
  {
    q, owner := LookalikeSuffix();
    assert KeptLabels(q, owner) == 0;
    assert Substituted(q, owner, target) == target;
    hide Wire, IsSubdomainOf;
    SubstitutionIsExact(q, owner, target);
  }

  method AppendLabels(out: Buffer, labels: seq<Label>, n: nat, ghost below: Name)
    requires n <= |labels|
    modifies out
    ensures out.data + Wire(below) == old(out.data) + Wire(Under(labels[..n], below))
  {
    ghost var start := out.data;
    for i := 0 to n
      invariant start + Wire(Under(labels[..n], below)) == out.data + Wire(Under(labels[i..n], below))
    {
      assert labels[i..n][0] == labels[i] && labels[i..n][1..] == labels[i + 1..n];
      AppendLabel(out.data, labels[i], Under(labels[i + 1..n], below));
      out.Extend([|labels[i]| as byte]);
      out.Extend(labels[i]);
    }
  }

  lemma {:induction false} UnderAll(n: Name)
    ensures Under(LabelsOf(n), Root) == n
  {
    if n.Sub? {
      UnderAll(n.parent);
    }
  }

  /** `synthesize_dname_cname` as it runs: labels copied into a buffer, then parsed. */
  method SynthesizeCname(q: Name, owner: Name, target: Name) returns (r: Option<Name>)
    ensures r == Synthesize(q, owner, target)
  {
    if q == owner || !IsSubdomainOf(q, owner) {
      return None;
    }
    var keep := KeptLabels(q, owner);
    var out := new Buffer();
    LabelCountIs(q);
    AppendLabels(out, LabelsOf(q), keep, target);
    ghost var kept := out.data;
    UnderAll(target);
    TakeAll(LabelsOf(target));
    AppendLabels(out, LabelsOf(target), |LabelsOf(target)|, Root);
    out.Extend([0]);
    PrependNothing(Wire(Substituted(q, owner, target)));
    assert out.data == kept + Wire(target);
    var parsed := NameAt(out.data, 0);
    r := if parsed.Ok? then Some(parsed.value.name) else None;
  }
}
