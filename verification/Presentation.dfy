/** Presentation format: `from_ascii` against `to_ascii` (src/name.rs). Characters are octets. */
module Presentation {
  import opened Octets
  import opened Names
  import opened Items
  import opened NameParsing

  const DOT: byte := 46
  const BACKSLASH: byte := 92
  const QUOTE: byte := 34
  const STAR: byte := 42

  // ---------------------------------------------------------------------------------------------
  // Printing

  function Decimal(b: byte): (s: seq<byte>)
    ensures |s| == 3
  {
    [48 + b / 100, 48 + b / 10 % 10, 48 + b % 10]
  }

  /** How one label octet is printed. The double quote, decimal 34, is printed as 042. */
  function Escape(b: byte): (s: seq<byte>)
    ensures |s| > 0
  {
    if b == DOT || b == BACKSLASH then [BACKSLASH, b]
    else if b == QUOTE then [BACKSLASH, 48, 52, 50]
    else if b == 32 || b == 40 || b == 41 || b == 59 || b == 64 || b < 0x21 || b > 0x7e then [BACKSLASH] + Decimal(b)
    else [b]
  }

  function Escaped(l: seq<byte>): seq<byte> {
    FlatMap(Escape, l, |l|)
  }

  function Labels(n: Name): seq<byte> {
    match n
    case Root => []
    case Sub(l, Root) => Escaped(l)
    case Sub(l, up) => Escaped(l) + ([DOT] + Labels(up))
  }

  /** What `Name::to_ascii` prints. */
  function ToAscii(n: Name): seq<byte> {
    if n == Root then [DOT] else Labels(n)
  }

  // ---------------------------------------------------------------------------------------------
  // Parsing

  /** The labels finished so far, the octets they take, and the label being read. */
  datatype Scan = Scan(labels: seq<Label>, total: nat, current: seq<byte>)

  function Push(st: Scan, b: byte): Scan {
    st.(current := st.current + [b])
  }

  /** `finish_label`: the root octet is not counted. */
  function Finish(st: Scan): Result<Scan>
    requires st.current != []
  {
    if |st.current| > 63 || st.total + 1 + |st.current| > MAX_NAME_LEN || |st.labels| >= MAX_LABELS then Err(Malformed)
    else Ok(Scan(st.labels + [st.current], st.total + 1 + |st.current|, []))
  }

  predicate Digit(b: byte) { 48 <= b <= 57 }

  /** The octet a backslash at `i` introduces, and where the escape ends. */
  function Unescape(s: seq<byte>, i: nat): Result<(byte, nat)> {
    if i + 1 >= |s| then Err(Malformed)
    else if !Digit(s[i + 1]) then Ok((s[i + 1], i + 2))
    else if i + 3 >= |s| || !Digit(s[i + 2]) || !Digit(s[i + 3]) then Err(Malformed)
    else
      var v := (s[i + 1] as int - 48) * 100 + (s[i + 2] as int - 48) * 10 + (s[i + 3] as int - 48);
      if v > 255 then Err(Malformed) else Ok((v as byte, i + 4))
  }

  /** The loop of `Name::from_ascii`, from character `i` on. */
  function ScanFrom(s: seq<byte>, i: nat, st: Scan): Result<Scan>
    decreases |s| - i
  {
    if i >= |s| then Ok(st)
    else if s[i] == BACKSLASH then
      match Unescape(s, i)
      case Err(e) => Err(e)
      case Ok((b, next)) => ScanFrom(s, next, Push(st, b))
    else if s[i] == DOT then
      if st.current == [] then if i + 1 == |s| then Ok(st) else Err(Malformed)
      else
        match Finish(st)
        case Err(e) => Err(e)
        case Ok(st') => ScanFrom(s, i + 1, st')
    else ScanFrom(s, i + 1, Push(st, s[i]))
  }

  function FinishLast(r: Result<Scan>): Result<Scan> {
    if r.Ok? && r.value.current != [] then Finish(r.value) else r
  }

  /** The name with the labels from number `i` on. */
  function FromLabels(ls: seq<Label>, i: nat): Name
    requires i <= |ls|
    decreases |ls| - i
  {
    if i == |ls| then Root else Sub(ls[i], FromLabels(ls, i + 1))
  }

  /** What `Name::from_ascii` reads: the labels folded to lower case. */
  function FromAscii(s: seq<byte>): Result<Name> {
    match FinishLast(ScanFrom(s, 0, Scan([], 0, [])))
    case Err(e) => Err(e)
    case Ok(st) => Ok(Canonical(FromLabels(st.labels, 0)))
  }

  // ---------------------------------------------------------------------------------------------
  // Reading back what was printed

  /** What becomes of an octet: a double quote is read back as an asterisk. */
  function Read(b: byte): byte {
    if b == QUOTE then STAR else b
  }

  function ReadLabel(l: Label): Label {
    Map(Read, l)
  }

  function ReadLabels(n: Name): Name {
    match n
    case Root => Root
    case Sub(l, up) => Sub(ReadLabel(l), ReadLabels(up))
  }

  lemma EscapeUnescapes(s: seq<byte>, i: nat, b: byte)
    requires HoldsAt(s, i, Escape(b)) && Escape(b)[0] == BACKSLASH
    ensures Unescape(s, i) == Ok((Read(b), i + |Escape(b)|))
  {
    var e := s[i..i + |Escape(b)|];
    assert s[i + 1] == e[1];
    if |Escape(b)| == 4 {
      assert s[i + 2] == e[2] && s[i + 3] == e[3];
    }
  }

  lemma ReadsEscape(s: seq<byte>, i: nat, b: byte, st: Scan)
    requires HoldsAt(s, i, Escape(b))
    ensures ScanFrom(s, i, st) == ScanFrom(s, i + |Escape(b)|, Push(st, Read(b)))
  {
    assert s[i] == s[i..i + |Escape(b)|][0];
    if Escape(b)[0] == BACKSLASH {
      EscapeUnescapes(s, i, b);
    }
  }

  lemma OneMoreRead(l: seq<byte>, k: nat)
    requires 0 < k <= |l|
    ensures Map(Read, l[..k]) == Map(Read, l[..k - 1]) + [Read(l[k - 1])]
  {
    assert l[..k] == l[..k - 1] + [l[k - 1]];
  }

  lemma {:induction false} ReadsEscaped(s: seq<byte>, i: nat, l: seq<byte>, k: nat, st: Scan, read: seq<byte>)
    requires HoldsAt(s, i, Escaped(l)) && k <= |l| && st.current == [] && read == Map(Read, l[..k])
    ensures ScanFrom(s, i, st) == ScanFrom(s, i + |FlatMap(Escape, l, k)|, st.(current := read))
  {
    hide Escape, Unescape, ScanFrom, HoldsAt;
    if k == 0 {
      assert st.(current := read) == st;
    } else {
      hide FlatMap;
      var before := Map(Read, l[..k - 1]);
      ReadsEscaped(s, i, l, k - 1, st, before);
      var p := i + |FlatMap(Escape, l, k - 1)|;
      assert HoldsAt(s, p, Escape(l[k - 1])) && i + |FlatMap(Escape, l, k)| == p + |Escape(l[k - 1])| by {
        ItemPart(Escape, l, k - 1, Escaped(l), s, i);
      }
      OneMoreRead(l, k);
      ReadsEscape(s, p, l[k - 1], st.(current := before));
    }
  }

  lemma ReadsLabel(s: seq<byte>, i: nat, l: Label, st: Scan)
    requires HoldsAt(s, i, Escaped(l)) && st.current == []
    ensures ScanFrom(s, i, st) == ScanFrom(s, i + |Escaped(l)|, st.(current := ReadLabel(l)))
  {
    TakeAll(l);
    ReadsEscaped(s, i, l, |l|, st, ReadLabel(l));
  }

  /** The state after all labels of `n` have been read behind those of `st`. */
  function After(st: Scan, n: Name): Result<Scan>
    decreases n
  {
    match n
    case Root => Ok(st)
    case Sub(l, up) =>
      if st.total + 1 + |l| > MAX_NAME_LEN || |st.labels| >= MAX_LABELS then Err(Malformed)
      else After(Scan(st.labels + [ReadLabel(l)], st.total + 1 + |l|, []), up)
  }

  lemma {:induction false} ReadsName(s: seq<byte>, i: nat, n: Name, st: Scan)
    requires n.Sub? && st.current == [] && HoldsAt(s, i, Labels(n)) && i + |Labels(n)| == |s|
    ensures FinishLast(ScanFrom(s, i, st)) == After(st, n)
    decreases n
  {
    hide FlatMap, Escape, Unescape;
    var l, p := n.first, i + |Escaped(n.first)|;
    if n.parent == Root {
      ReadsLabel(s, i, l, st);
    } else {
      HoldsParts(s, i, Escaped(l), [DOT] + Labels(n.parent));
      HoldsParts(s, p, [DOT], Labels(n.parent));
      HoldsOne(s, p, DOT);
      ReadsLabel(s, i, l, st);
      var st1 := Finish(st.(current := ReadLabel(l)));
      if st1.Ok? {
        ReadsName(s, p + 1, n.parent, st1.value);
      }
    }
  }

  /** The octet limit is the only one that counts: 127 labels take 254 octets. */
  lemma {:induction false} AfterIs(st: Scan, n: Name)
    requires st.current == [] && 2 * |st.labels| <= st.total
    ensures After(st, n) == if n == Root || st.total + SerialLen(n) <= MAX_NAME_LEN
                            then Ok(Scan(st.labels + LabelsOf(ReadLabels(n)), st.total + SerialLen(n), []))
                            else Err(Malformed)
    decreases n
  {
    match n
    case Root => AppendNothing(st.labels);
    case Sub(l, up) =>
      if st.total + 1 + |l| <= MAX_NAME_LEN {
        AfterIs(Scan(st.labels + [ReadLabel(l)], st.total + 1 + |l|, []), up);
        Associative(st.labels, [ReadLabel(l)], LabelsOf(ReadLabels(up)));
      }
  }

  /** The octets of the labels and their lengths, the root not counted. */
  function SerialLen(n: Name): nat {
    WireLen(n) - 1
  }

  lemma {:induction false} FromLabelsOf(done: seq<Label>, n: Name, ls: seq<Label>)
    requires ls == done + LabelsOf(n)
    ensures FromLabels(ls, |done|) == n
    decreases n
  {
    if n.Sub? {
      assert ls[|done|] == n.first;
      Associative(done, [n.first], LabelsOf(n.parent));
      FromLabelsOf(done + [n.first], n.parent, ls);
    }
  }

  /** Printing and reading a name: all of its octets come back, folded to lower case and with quotes
      turned into asterisks, if it has at most 256 octets; a longer one is refused. */
  lemma PrintThenRead(n: Name)
    ensures FromAscii(ToAscii(n)) == if WireLen(n) <= 256 then Ok(Canonical(ReadLabels(n))) else Err(Malformed)
  {
    var st := Scan([], 0, []);
    if n.Sub? {
      var s := Labels(n);
      TakeAll(s);
      ReadsName(s, 0, n, st);
      AfterIs(st, n);
      PrependNothing(LabelsOf(ReadLabels(n)));
      FromLabelsOf([], ReadLabels(n), LabelsOf(ReadLabels(n)));
    }
  }

  ghost predicate NoQuote(n: Name) {
    n.Sub? ==> QUOTE !in n.first && NoQuote(n.parent)
  }

  lemma {:induction false} ReadLabelsIs(n: Name)
    ensures WireLen(ReadLabels(n)) == WireLen(n)
    ensures Canonical(ReadLabels(n)) == n <==> LowerCase(n) && NoQuote(n)
    ensures ReadLabels(n) == n <==> NoQuote(n)
  {
    if n.Sub? {
      ReadLabelsIs(n.parent);
      LowerKeepsStar(n.first);
      assert ReadLabel(n.first) == n.first <==> QUOTE !in n.first;
    }
  }

  lemma {:induction false} LowerAt(s: seq<byte>, i: nat)
    requires i < |s|
    ensures LowerAll(s)[i] == Lower(s[i])
  {
    if i > 0 {
      LowerAt(s[1..], i - 1);
    }
  }

  lemma LowerKeepsStar(l: Label)
    ensures LowerAll(ReadLabel(l)) == l <==> LowerAll(l) == l && QUOTE !in l
  {
    if LowerAll(ReadLabel(l)) == l {
      forall i | 0 <= i < |l| ensures l[i] != QUOTE && Lower(l[i]) == l[i] {
        LowerAt(ReadLabel(l), i);
      }
      forall i | 0 <= i < |l| ensures LowerAll(l)[i] == l[i] {
        LowerAt(l, i);
      }
    } else if QUOTE !in l {
      assert ReadLabel(l) == l;
    }
  }

  /** The round trip holds exactly for lower-case names of at most 256 octets without a double quote. */
  lemma PresentationRoundTrip(n: Name)
    ensures FromAscii(ToAscii(n)) == Ok(n) <==> WireLen(n) <= 256 && LowerCase(n) && NoQuote(n)
  {
    PrintThenRead(n);
    ReadLabelsIs(n);
  }

  /** So a name of 256 octets can be built here that the wire parser refuses. */
  lemma OneOctetTooLong(n: Name)
    requires WireLen(n) == 256
    ensures FromAscii(ToAscii(n)).Ok? && NameAt(Wire(n), 0).Err?
  {
    PrintThenRead(n);
    PlainDecides(n);
  }

  // ---------------------------------------------------------------------------------------------
  // What is accepted, from any string

  lemma {:induction false} OneMoreLabel(ls: seq<Label>, l: Label, i: nat)
    requires i <= |ls|
    ensures WireLen(FromLabels(ls + [l], i)) == WireLen(FromLabels(ls, i)) + 1 + |l|
    decreases |ls| - i
  {
    if i < |ls| {
      OneMoreLabel(ls, l, i + 1);
    } else {
      assert FromLabels(ls + [l], i + 1) == Root;
    }
  }

  /** The octets of the finished labels are counted, and within the limit. */
  ghost predicate Tallied(st: Scan) {
    st.total <= MAX_NAME_LEN && WireLen(FromLabels(st.labels, 0)) == st.total + 1
  }

  lemma FinishTallies(st: Scan)
    requires Tallied(st) && st.current != []
    ensures Finish(st).Ok? ==> Tallied(Finish(st).value)
  {
    if |st.current| <= 63 {
      OneMoreLabel(st.labels, st.current, 0);
    }
  }

  lemma {:induction false} ScanTallies(s: seq<byte>, i: nat, st: Scan)
    requires Tallied(st)
    ensures ScanFrom(s, i, st).Ok? ==> Tallied(ScanFrom(s, i, st).value)
    decreases |s| - i
  {
    hide Tallied, Finish, Unescape;
    if i < |s| {
      if s[i] == BACKSLASH {
        var e := Unescape(s, i);
        if e.Ok? {
          UnescapeMoves(s, i);
          PushTallies(st, e.value.0);
          ScanTallies(s, e.value.1, Push(st, e.value.0));
        }
      } else if s[i] != DOT {
        PushTallies(st, s[i]);
        ScanTallies(s, i + 1, Push(st, s[i]));
      } else if st.current != [] {
        FinishTallies(st);
        if Finish(st).Ok? {
          ScanTallies(s, i + 1, Finish(st).value);
        }
      }
    }
  }

  lemma UnescapeMoves(s: seq<byte>, i: nat)
    ensures Unescape(s, i).Ok? ==> i < Unescape(s, i).value.1 <= |s|
  {
  }

  lemma PushTallies(st: Scan, b: byte)
    requires Tallied(st)
    ensures Tallied(Push(st, b))
  {
  }

  /** Whatever the string, a name built from it is in lower case and has at most 256 octets. */
  lemma AcceptedText(s: seq<byte>)
    ensures FromAscii(s).Ok? ==> LowerCase(FromAscii(s).value) && WireLen(FromAscii(s).value) <= 256
  {
    var start := Scan([], 0, []);
    assert Tallied(start);
    ScanTallies(s, 0, start);
    var r := ScanFrom(s, 0, start);
    if r.Ok? && r.value.current != [] {
      FinishTallies(r.value);
    }
    if FinishLast(r).Ok? {
      CanonicalKeepsShape(FromLabels(FinishLast(r).value.labels, 0));
    }
  }

  predicate Printable(b: byte) { 0x21 <= b <= 0x7e }

  lemma EscapePrints(b: byte, i: nat)
    requires i < |Escape(b)|
    ensures Printable(Escape(b)[i])
  {
  }

  lemma {:induction false} EscapedPrints(l: seq<byte>, n: nat, i: nat)
    requires n <= |l| && i < |FlatMap(Escape, l, n)|
    ensures Printable(FlatMap(Escape, l, n)[i])
  {
    var front := FlatMap(Escape, l, n - 1);
    hide Escape;
    if i < |front| {
      EscapedPrints(l, n - 1, i);
    } else {
      EscapePrints(l[n - 1], i - |front|);
    }
  }

  /** Whatever a name holds, what is printed of it is printable ASCII without a space. */
  lemma {:induction false} PrintedIsPrintable(n: Name, i: nat)
    requires i < |ToAscii(n)|
    ensures Printable(ToAscii(n)[i])
  {
    if n.Sub? {
      var l := Escaped(n.first);
      hide Escape, Printable;
      assert Printable(DOT) by {
        DotPrints();
      }
      if i < |l| {
        EscapedPrints(n.first, |n.first|, i);
      } else if i > |l| {
        PrintedIsPrintable(n.parent, i - |l| - 1);
      }
    } else {
      DotPrints();
    }
  }

  lemma DotPrints()
    ensures Printable(DOT)
  {
  }

  /** An octet that is not printable, or a space, is printed as its three decimal digits. */
  lemma EscapedInDecimal(b: byte)
    requires !Printable(b)
    ensures var e := Escape(b);
            && |e| == 4 && e[0] as char == '\\' && Digit(e[1]) && Digit(e[2]) && Digit(e[3])
            && b as int == 100 * (e[1] as int - '0' as int) + 10 * (e[2] as int - '0' as int) + e[3] as int - '0' as int
  {
  }

  // ---------------------------------------------------------------------------------------------
  // The loops of the program

  /** What is still to be printed once some label has been. */
  function Rest(n: Name): seq<byte> {
    if n == Root then [] else [DOT] + Labels(n)
  }

  lemma LabelsStep(n: Name)
    requires n.Sub?
    ensures Labels(n) == Escaped(n.first) + Rest(n.parent)
  {
    AppendNothing(Escaped(n.first));
  }

  lemma EscapedIsNotEmpty(l: Label)
    ensures |Escaped(l)| > 0
  {
    FlatMapPrefix(Escape, l, 1, |l|);
    assert |FlatMap(Escape, l, 1)| == |FlatMap(Escape, l, 0)| + |Escape(l[0])|;
  }

  method PrintLabel(l: Label, before: seq<byte>) returns (s: seq<byte>)
    ensures s == before + Escaped(l)
  {
    s := before;
    for i := 0 to |l|
      invariant s == before + FlatMap(Escape, l, i)
    {
      Associative(before, FlatMap(Escape, l, i), Escape(l[i]));
      s := s + Escape(l[i]);
    }
  }

  /** `Name::to_ascii`. */
  method Print(n: Name) returns (s: seq<byte>)
    ensures s == ToAscii(n)
  {
    var cur := n;
    s := [];
    PrependNothing(Labels(n));
    while cur != Root
      invariant Labels(n) == s + if s == [] then Labels(cur) else Rest(cur)
      invariant s == [] <==> cur == n
      decreases cur
    {
      var before := if s == [] then s else s + [DOT];
      s := PrintLabel(cur.first, before);
      EscapedIsNotEmpty(cur.first);
      PrintedOneMore(before, cur, n, s);
      cur := cur.parent;
    }
    AppendNothing(s);
    if s == [] {
      s := [DOT];
    }
  }

  lemma PrintedOneMore(before: seq<byte>, cur: Name, n: Name, s: seq<byte>)
    requires cur.Sub? && s == before + Escaped(cur.first)
    requires Labels(n) == before + Labels(cur)
          || (before != [] && before[|before| - 1] == DOT && Labels(n) == before[..|before| - 1] + Rest(cur))
    ensures Labels(n) == s + Rest(cur.parent)
  {
    LabelsStep(cur);
    Associative(before, Escaped(cur.first), Rest(cur.parent));
    if before != [] && before[|before| - 1] == DOT && Labels(n) == before[..|before| - 1] + Rest(cur) {
      Associative(before[..|before| - 1], [DOT], Labels(cur));
      assert before[..|before| - 1] + [DOT] == before;
    }
  }

  /** `Name::from_ascii`. */
  method Parse(s: seq<byte>) returns (r: Result<Name>)
    ensures r == FromAscii(s)
  {
    var st, i := Scan([], 0, []), 0;
    while i < |s|
      invariant ScanFrom(s, 0, Scan([], 0, [])) == ScanFrom(s, i, st)
      decreases |s| - i
    {
      if s[i] == BACKSLASH {
        var e := Unescape(s, i);
        if e.Err? {
          return Err(e.error);
        }
        st, i := Push(st, e.value.0), e.value.1;
      } else if s[i] == DOT {
        if st.current == [] {
          if i + 1 == |s| {
            break;
          }
          return Err(Malformed);
        }
        var next := Finish(st);
        if next.Err? {
          return Err(next.error);
        }
        st, i := next.value, i + 1;
      } else {
        st, i := Push(st, s[i]), i + 1;
      }
    }
    if st.current != [] {
      var last := Finish(st);
      if last.Err? {
        return Err(last.error);
      }
      st := last.value;
    }
    r := Ok(Canonical(FromLabels(st.labels, 0)));
  }
}
