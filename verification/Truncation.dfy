/** UDP truncation: one serialization pass finds how many records fit (src/message.rs). */
module Truncation {
  import opened Octets
  import opened Compressor
  import opened RData
  import opened Records
  import opened Edns
  import opened HeaderFlags
  import opened Message
  import opened Serializer

  /** The octets the OPT record takes. */
  function OptLen(edns: Option<Edns>): nat {
    match edns
    case None => 0
    case Some(e) => 1 + 10 + |OptionsWire(e.options)|
  }

  lemma OptLenIs(w: Writer, edns: Option<Edns>)
    ensures |PutOpt(w, edns).out| == |w.out| + OptLen(edns)
  {
  }

  /** The writer of the fitting pass before the first record. */
  function BeforeRecords(m: Message): Writer {
    PutQuestions(Writer(StartBytes(m) + ZERO_COUNTS, map[]), m.questions, |m.questions|)
  }

  /** A way to write a record. */
  type Put = (Writer, Record) -> Result<Writer>

  /** The first `k` records are written without an error, in `budget` octets. */
  predicate FitIn(put: Put, w: Writer, rs: seq<Record>, k: nat, budget: nat)
    requires k <= |rs|
  {
    match Fold(put, w, rs, k)
    case Err(_) => false
    case Ok(v) => |v.out| <= budget
  }

  /** `k` is how many records the fitting pass keeps: each of them fits, and one more does not. */
  ghost predicate LongestFit(put: Put, w: Writer, rs: seq<Record>, k: nat, budget: nat) {
    && k <= |rs|
    && (forall j :: 0 < j <= k ==> FitIn(put, w, rs, j, budget))
    && (k < |rs| ==> !FitIn(put, w, rs, k + 1, budget))
  }

  /** A prefix of a prefix that fits, fits: so nothing longer than the longest fit would. */
  lemma NoLongerFit(w: Writer, rs: seq<Record>, k: nat, budget: nat, j: nat)
    requires LongestFit(PutRecord, w, rs, k, budget) && k < j <= |rs|
    ensures !FitIn(PutRecord, w, rs, j, budget)
  {
    if FitIn(PutRecord, w, rs, j, budget) {
      RecordsGrow(w, rs, k + 1, j);
    }
  }

  lemma LongestFitIsUnique(w: Writer, rs: seq<Record>, k: nat, k': nat, budget: nat)
    requires LongestFit(PutRecord, w, rs, k, budget) && LongestFit(PutRecord, w, rs, k', budget)
    ensures k == k'
  {
    if k < k' {
      NoLongerFit(w, rs, k, budget, k');
    } else if k' < k {
      NoLongerFit(w, rs, k', budget, k);
    }
  }

  /** Splits `k` records, counted over the three sections in order, into the number kept of each. */
  function SplitKept(m: Message, k: nat): (nat, nat, nat)
    requires k <= |Sections(m)|
  {
    var a, b := |m.answers|, |m.answers| + |m.authorities|;
    if k <= a then (k, 0, 0) else if k <= b then (a, k - a, 0) else (a, b - a, k - b)
  }

  /** The message with the TC bit set and only the first `k` records. */
  function CutAt(m: Message, k: nat): Message
    requires k <= |Sections(m)|
  {
    var (a, b, c) := SplitKept(m, k);
    m.(flags := m.flags.(tc := true), answers := m.answers[..a], authorities := m.authorities[..b],
       additionals := m.additionals[..c])
  }

  lemma CutKeepsPrefix(m: Message, k: nat)
    requires k <= |Sections(m)|
    ensures Sections(CutAt(m, k)) == Sections(m)[..k]
  {
  }

  /** `Message::wire_len`; `None` stands for `usize::MAX`. */
  function SerializedLen(m: Message): Option<nat> {
    match ToBytes(m)
    case Err(_) => None
    case Ok(bytes) => Some(|bytes|)
  }

  predicate Within(len: Option<nat>, limit: nat) {
    len.Some? && len.value <= limit
  }

  /** The records kept by the fitting pass, `k` of which have been accepted. */
  function Kept(put: Put, w: Writer, rs: seq<Record>, k: nat, budget: nat): nat
    requires k <= |rs|
    decreases |rs| - k
  {
    if k == |rs| || !FitIn(put, w, rs, k + 1, budget) then k else Kept(put, w, rs, k + 1, budget)
  }

  lemma {:induction false} KeptIsLongest(put: Put, w: Writer, rs: seq<Record>, k: nat, budget: nat)
    requires k <= |rs| && forall j :: 0 < j <= k ==> FitIn(put, w, rs, j, budget)
    ensures LongestFit(put, w, rs, Kept(put, w, rs, k, budget), budget)
    decreases |rs| - k
  {
    if k < |rs| && FitIn(put, w, rs, k + 1, budget) {
      KeptIsLongest(put, w, rs, k + 1, budget);
    }
  }

  /** The limit is floored at 512 octets. */
  function Floored(limit: nat): nat {
    if limit < 512 then 512 else limit
  }

  /** What is left of the limit once the OPT record has its place, saturating at zero. */
  function Budget(m: Message, limit: nat): nat {
    if OptLen(m.edns) > limit then 0 else limit - OptLen(m.edns)
  }

  function KeptOf(m: Message, limit: nat): (k: nat)
    ensures k <= |Sections(m)|
  {
    KeptIsLongest(PutRecord, BeforeRecords(m), Sections(m), 0, Budget(m, limit));
    Kept(PutRecord, BeforeRecords(m), Sections(m), 0, Budget(m, limit))
  }

  /** What `Message::truncate_for_udp` makes of a message. */
  function Truncated(m: Message, limit: nat): Message {
    if Within(SerializedLen(m), Floored(limit)) then m else CutAt(m, KeptOf(m, Floored(limit)))
  }

  // ---------------------------------------------------------------------------------------------
  // The fitting pass predicts the serialized message

  /** The octets behind the header of a cut message are those of the fitting pass, then the OPT record. */
  lemma CutBytes(m: Message, k: nat)
    requires k <= |Sections(m)|
    ensures var fit := PutRecords(BeforeRecords(m), Sections(m), k);
            && (ToBytes(CutAt(m, k)).Ok? <==> fit.Ok?)
            && (fit.Ok? ==> var bytes, out := ToBytes(CutAt(m, k)).value, PutOpt(fit.value, m.edns).out;
                            |bytes| == |out| == |fit.value.out| + OptLen(m.edns) && |bytes| >= 12
                            && bytes[12..] == out[12..])
  {
    var m', rs := CutAt(m, k), Sections(m);
    var a, b := Writer(StartBytes(m) + ZERO_COUNTS, map[]), Writer(StartBytes(m') + CountBytes(m'), map[]);
    assert Moved(a, b, 12);
    MovedQuestions(a, b, 12, m.questions, |m.questions|);
    CutKeepsPrefix(m, k);
    MovedCut(BeforeRecords(m), PutQuestions(b, m.questions, |m.questions|), rs, rs[..k], k, m.edns);
    CountsAreDirect(m');
    if PutRecords(BeforeRecords(m), rs, k).Ok? {
      OptLenIs(PutRecords(BeforeRecords(m), rs, k).value, m.edns);
    }
  }

  lemma MovedCut(a: Writer, b: Writer, rs: seq<Record>, cut: seq<Record>, k: nat, edns: Option<Edns>)
    requires Moved(a, b, 12) && k <= |rs| && cut == rs[..k]
    ensures PutRecords(a, rs, k).Ok? <==> PutRecords(b, cut, k).Ok?
    ensures PutRecords(a, rs, k).Ok? ==> Moved(PutOpt(PutRecords(a, rs, k).value, edns),
                                               PutOpt(PutRecords(b, cut, k).value, edns), 12)
  {
    FoldOfPrefix(PutRecord, b, cut, rs, k);
    MovedRecords(a, b, 12, rs, k);
    if PutRecords(a, rs, k).Ok? {
      MovedOpt(PutRecords(a, rs, k).value, PutRecords(b, cut, k).value, 12, edns);
    }
  }

  /** Truncation is exact. A message over the limit keeps the longest prefix of its records that fits
      and gets the TC bit; any longer prefix would exceed the limit; the result is within the limit if
      and only if header, questions and OPT record are. */
  lemma TruncationIsExact(m: Message, limit: nat, cap: nat, m': Message, k: nat)
    requires cap == if limit < 512 then 512 else limit
    requires !Within(SerializedLen(m), cap) && m' == Truncated(m, limit) && k == |Sections(m')|
    ensures m'.flags == m.flags.(tc := true) && m'.id == m.id && m'.questions == m.questions && m'.edns == m.edns
    ensures m'.answers <= m.answers && m'.authorities <= m.authorities && m'.additionals <= m.additionals
    ensures k <= |Sections(m)| && Sections(m') == Sections(m)[..k]
    ensures LongestFit(PutRecord, BeforeRecords(m), Sections(m), k, Budget(m, cap))
    ensures forall j :: k < j <= |Sections(m)| ==> !Within(SerializedLen(CutAt(m, j)), cap)
    ensures Within(SerializedLen(m'), cap) <==> |BeforeRecords(m).out| + OptLen(m.edns) <= cap
  {
    var w, rs, budget, n := BeforeRecords(m), Sections(m), Budget(m, cap), KeptOf(m, cap);
    assert m' == CutAt(m, n);
    KeptIsLongest(PutRecord, w, rs, 0, budget);
    CutKeepsPrefix(m, n);
    forall j | n < j <= |rs| ensures !Within(SerializedLen(CutAt(m, j)), cap) {
      NoLongerFit(w, rs, n, budget, j);
      CutBytes(m, j);
    }
    CutBytes(m, n);
    KeptGrows(m, n, budget);
  }

  lemma KeptGrows(m: Message, k: nat, budget: nat)
    requires k <= |Sections(m)| && (k > 0 ==> FitIn(PutRecord, BeforeRecords(m), Sections(m), k, budget))
    ensures var fit := PutRecords(BeforeRecords(m), Sections(m), k);
            fit.Ok? && |BeforeRecords(m).out| <= |fit.value.out| && |BeforeRecords(m).out| >= 12
            && (k == 0 ==> fit.value == BeforeRecords(m))
  {
    QuestionsGrow(Writer(StartBytes(m) + ZERO_COUNTS, map[]), m.questions, |m.questions|);
    RecordsGrow(BeforeRecords(m), Sections(m), 0, k);
  }

  /** Whatever the message, its truncated form is within the limit if and only if header, questions and OPT
      record are. A message within the limit stays as it is. */
  lemma FitsAfterTruncation(m: Message, limit: nat, cap: nat)
    requires cap == if limit < 512 then 512 else limit
    ensures Within(SerializedLen(m), cap) ==> Truncated(m, limit) == m
    ensures Within(SerializedLen(Truncated(m, limit)), cap) <==> |BeforeRecords(m).out| + OptLen(m.edns) <= cap
  {
    hide BeforeRecords, OptLen, ToBytes;
    if Within(SerializedLen(m), cap) {
      AtLeastTheRest(m);
    } else {
      TruncationIsExact(m, limit, cap, Truncated(m, limit), |Sections(Truncated(m, limit))|);
    }
  }

  lemma AtLeastTheRest(m: Message)
    ensures ToBytes(m).Ok? ==> |ToBytes(m).value| >= |BeforeRecords(m).out| + OptLen(m.edns)
  {
    var w := PutRecords(BeforeRecords(m), Sections(m), |Sections(m)|);
    hide BeforeRecords, PutRecords, OptLen;
    if w.Ok? {
      RecordsGrow(BeforeRecords(m), Sections(m), 0, |Sections(m)|);
      OptLenIs(w.value, m.edns);
      NothingPut(BeforeRecords(m), Sections(m));
    }
  }

  lemma NothingPut(w: Writer, rs: seq<Record>)
    ensures PutRecords(w, rs, 0) == Ok(w)
  {
  }

  /** A message with no question and no record, whose one option is an identifier of `n` octets. */
  function Identified(n: nat): Message {
    Message(0, Flags(true, 0, false, false, false, false, false, false, 0), [], [], [], [],
            Some(Edns(1232, 0, 0, false, [Nsid(seq(n, _ => 0))])))
  }

  /** So a minimal message does not always fit: with an identifier of 600 octets it takes 627, and
      truncating it to 512 leaves it as it is but for the TC bit. */
  lemma MinimalMessageOver()
    ensures SerializedLen(Identified(600)) == Some(627)
    ensures !Within(SerializedLen(Truncated(Identified(600), 512)), 512)
  {
    var m := Identified(600);
    IdentifiedSize(600);
    hide Identified;
    FitsAfterTruncation(m, 512, 512);
  }

  lemma IdentifiedSize(n: nat)
    requires n <= 0xffff
    ensures |BeforeRecords(Identified(n)).out| + OptLen(Identified(n).edns) == n + 27
    ensures SerializedLen(Identified(n)) == Some(n + 27)
  {
    var m := Identified(n);
    var o := m.edns.value.options[0];
    assert m.edns.value.options[..0] == [];
    assert |OptionBytes(o)| == n + 4;
    assert OptionsWire([o]) == FlatMap(OptionBytes, [o], 0) + OptionBytes(o);
    OptLenIs(BeforeRecords(m), m.edns);
  }

  // ---------------------------------------------------------------------------------------------
  // The passes of the program

  /** Appends a record, and takes it back if it fails or goes over. */
  method TryRecord(r: Record, out: Buffer, comp: NameCompressor, budget: nat) returns (fits: bool)
    modifies out, comp
    ensures match PutRecord(old(State(out, comp)), r)
            case Err(_) => !fits
            case Ok(v) => fits == (|v.out| <= budget) && (fits ==> State(out, comp) == v)
  {
    hide PutRecord;
    var before := |out.data|;
    var ok := WriteRecord(r, out, comp);
    fits := ok.Ok? && |out.data| <= budget;
    if !fits {
      out.Truncate(before);
    }
  }

  /** One section of the fitting pass. `rs` are the records of all sections, `k` of which came before. */
  method FitSection(recs: seq<Record>, out: Buffer, comp: NameCompressor, budget: nat, ghost w: Writer,
                    ghost rs: seq<Record>, ghost k: nat) returns (n: nat)
    requires k + |recs| <= |rs| && rs[k..k + |recs|] == recs
    requires Fold(PutRecord, w, rs, k) == Ok(State(out, comp))
    modifies out, comp
    ensures n <= |recs|
    ensures Kept(PutRecord, w, rs, k, budget) == if n < |recs| then k + n else Kept(PutRecord, w, rs, k + n, budget)
    ensures n == |recs| ==> Fold(PutRecord, w, rs, k + n) == Ok(State(out, comp))
  {
    hide PutRecord;
    n := 0;
    while n < |recs|
      invariant n <= |recs| && Fold(PutRecord, w, rs, k + n) == Ok(State(out, comp))
      invariant Kept(PutRecord, w, rs, k, budget) == Kept(PutRecord, w, rs, k + n, budget)
    {
      assert rs[k + n] == rs[k..k + |recs|][n];
      var fits := TryRecord(recs[n], out, comp, budget);
      if !fits {
        return;
      }
      n := n + 1;
    }
  }

  /** `kept` counts `k` records over three sections in order. */
  predicate InOrder(kept: (nat, nat, nat), m: Message, k: nat) {
    && kept.0 <= |m.answers| && kept.1 <= |m.authorities| && kept.2 <= |m.additionals|
    && (kept.0 < |m.answers| ==> kept.1 == 0 && kept.2 == 0) && (kept.1 < |m.authorities| ==> kept.2 == 0)
    && k == kept.0 + kept.1 + kept.2
  }

  lemma InOrderIsSplit(kept: (nat, nat, nat), m: Message, k: nat)
    requires InOrder(kept, m, k)
    ensures k <= |Sections(m)| && kept == SplitKept(m, k)
  {
  }

  /** The three sections, one after another, until a record does not fit. */
  method FitAll(m: Message, out: Buffer, comp: NameCompressor, budget: nat, ghost w: Writer,
                ghost rs: seq<Record>) returns (kept: (nat, nat, nat))
    requires w == State(out, comp) && |rs| == |m.answers| + |m.authorities| + |m.additionals|
    requires var k, k' := |m.answers|, |m.answers| + |m.authorities|;
             rs[0..k] == m.answers && rs[k..k'] == m.authorities && rs[k'..|rs|] == m.additionals
    modifies out, comp
    ensures InOrder(kept, m, Kept(PutRecord, w, rs, 0, budget))
  {
    hide FitIn, PutRecord;
    ghost var k, k' := |m.answers|, |m.answers| + |m.authorities|;
    var a := FitSection(m.answers, out, comp, budget, w, rs, 0);
    if a < |m.answers| {
      return (a, 0, 0);
    }
    var b := FitSection(m.authorities, out, comp, budget, w, rs, k);
    if b < |m.authorities| {
      return (a, b, 0);
    }
    var c := FitSection(m.additionals, out, comp, budget, w, rs, k');
    return (a, b, c);
  }

  /** A message whose sections are cut in place. */
  class Response {
    var id: uint16
    var flags: Flags
    var questions: seq<Question>
    var answers: seq<Record>
    var authorities: seq<Record>
    var additionals: seq<Record>
    var edns: Option<Edns>

    function Value(): Message
      reads this
    {
      Message(id, flags, questions, answers, authorities, additionals, edns)
    }

    constructor (m: Message)
      ensures Value() == m
    {
      id, flags, edns := m.id, m.flags, m.edns;
      questions, answers, authorities, additionals := m.questions, m.answers, m.authorities, m.additionals;
    }

    /** `Message::fit_sections`: how many records of each section fit. */
    method FitSections(limit: nat) returns (kept: (nat, nat, nat))
      ensures InOrder(kept, Value(), KeptOf(Value(), limit))
    {
      var budget := Budget(Value(), limit);
      var out := new Buffer();
      var comp := new NameCompressor();
      out.Extend(StartBytes(Value()));
      out.Extend(ZERO_COUNTS);
      assert State(out, comp) == Writer(StartBytes(Value()) + ZERO_COUNTS, map[]);
      WriteQuestions(questions, out, comp);
      SectionParts(Value());
      kept := FitAll(Value(), out, comp, budget, State(out, comp), Sections(Value()));
    }

    /** `Message::wire_len`. */
    method WireLength() returns (len: Option<nat>)
      ensures len == SerializedLen(Value())
    {
      var bytes := Serialize(Value());
      len := if bytes.Ok? then Some(|bytes.value|) else None;
    }

    method KeepOnly(kept: (nat, nat, nat), ghost k: nat)
      requires InOrder(kept, Value(), k)
      modifies this
      ensures k <= |Sections(old(Value()))| && Value() == CutAt(old(Value()), k).(flags := old(flags))
    {
      InOrderIsSplit(kept, Value(), k);
      answers := answers[..kept.0];
      authorities := authorities[..kept.1];
      additionals := additionals[..kept.2];
    }

    /** `Message::truncate_for_udp`. */
    method TruncateForUdp(limit: nat)
      modifies this
      ensures Value() == Truncated(old(Value()), limit)
    {
      hide SerializedLen, KeptOf;
      var cap := if limit < 512 then 512 else limit;
      var len := WireLength();
      if Within(len, cap) {
        return;
      }
      ghost var whole := Value();
      flags := flags.(tc := true);
      TcKeepsFit(whole, Value(), cap);
      var kept := FitSections(cap);
      KeepOnly(kept, KeptOf(whole, cap));
    }
  }

  /** The TC bit, set before the fitting pass, does not change what fits. */
  lemma TcKeepsFit(m: Message, m': Message, limit: nat)
    requires m' == m.(flags := m.flags.(tc := true))
    ensures KeptOf(m', limit) == KeptOf(m, limit)
  {
    var a, b := Writer(StartBytes(m) + ZERO_COUNTS, map[]), Writer(StartBytes(m') + ZERO_COUNTS, map[]);
    assert Moved(a, b, 12);
    MovedQuestions(a, b, 12, m.questions, |m.questions|);
    var w, w', rs, budget := BeforeRecords(m), BeforeRecords(m'), Sections(m), Budget(m, limit);
    var k, k' := KeptOf(m, limit), KeptOf(m', limit);
    KeptIsLongest(PutRecord, w, rs, 0, budget);
    KeptIsLongest(PutRecord, w', rs, 0, budget);
    forall j | 0 <= j <= |rs| ensures FitIn(PutRecord, w, rs, j, budget) <==> FitIn(PutRecord, w', rs, j, budget) {
      MovedRecords(w, w', 12, rs, j);
    }
    LongestFitIsUnique(w, rs, k, k', budget);
  }
}
