/** DNS messages: header, questions, record sections and the OPT pseudo-record (src/message.rs). */
module Message {
  import opened Octets
  import opened Names
  import opened Compressor
  import opened RData
  import opened Records
  import opened Edns
  import opened HeaderFlags

  const MAX_QUESTIONS: nat := 16
  const MAX_SECTION_RECORDS: nat := 4096

  datatype Question = Question(qname: Name, qtype: uint16, qclass: uint16)

  datatype Message = Message(id: uint16, flags: Flags, questions: seq<Question>, answers: seq<Record>,
                             authorities: seq<Record>, additionals: seq<Record>, edns: Option<Edns>)

  // ---------------------------------------------------------------------------------------------
  // Writing

  function PutQuestion(w: Writer, q: Question): Writer {
    PutBytes(PutName(w, q.qname), U16Bytes(q.qtype) + U16Bytes(q.qclass))
  }

  function PutQuestions(w: Writer, qs: seq<Question>, n: nat): Writer
    requires n <= |qs|
  {
    if n == 0 then w else PutQuestion(PutQuestions(w, qs, n - 1), qs[n - 1])
  }

  function PutRecords(w: Writer, rs: seq<Record>, n: nat): Result<Writer>
    requires n <= |rs|
  {
    Fold(PutRecord, w, rs, n)
  }

  /** The OPT record in the form of any other record. */
  function OptRecord(e: Edns): Record {
    Record(Root, OPT, e.udpSize, TtlField(e), [Raw(OptionsWire(e.options))])
  }

  /** The OPT record as the program writes it: the length field keeps the low 16 bits. */
  function OptBytes(e: Edns): seq<byte> {
    var data := OptionsWire(e.options);
    [0] + (U16Bytes(OPT) + U16Bytes(e.udpSize) + U32Bytes(TtlField(e))) + U16Bytes(|data| % 0x1_0000) + data
  }

  lemma OptJoins(out: seq<byte>, fixed: seq<byte>, len: seq<byte>, data: seq<byte>)
    ensures out + [0] + fixed + len + data == out + ([0] + fixed + len + data)
  {
  }

  function PutOpt(w: Writer, edns: Option<Edns>): Writer {
    match edns
    case None => w
    case Some(e) => PutBytes(w, OptBytes(e))
  }

  function Sections(m: Message): seq<Record> {
    m.answers + m.authorities + m.additionals
  }

  lemma SectionParts(m: Message)
    ensures var rs, a, b := Sections(m), |m.answers|, |m.answers| + |m.authorities|;
            rs[0..a] == m.answers && rs[a..b] == m.authorities && rs[b..|rs|] == m.additionals
  {
  }

  /** Section counts, each truncated to 16 bits. */
  function CountBytes(m: Message): (b: seq<byte>)
    ensures |b| == 8
  {
    U16Bytes(|m.questions| % 0x1_0000) + U16Bytes(|m.answers| % 0x1_0000) + U16Bytes(|m.authorities| % 0x1_0000)
    + U16Bytes((|m.additionals| + if m.edns.Some? then 1 else 0) % 0x1_0000)
  }

  function StartBytes(m: Message): (b: seq<byte>)
    ensures |b| == 4
  {
    U16Bytes(m.id) + U16Bytes(FlagsWord(m.flags))
  }

  /** Everything up to the OPT record, after a header whose counts are `counts`. */
  function PutBody(m: Message, counts: seq<byte>, n: nat): Result<Writer>
    requires n <= |Sections(m)|
  {
    PutRecords(PutQuestions(Writer(StartBytes(m) + counts, map[]), m.questions, |m.questions|), Sections(m), n)
  }

  const ZERO_COUNTS: seq<byte> := [0, 0, 0, 0, 0, 0, 0, 0]

  /** `Message::to_bytes`: counts of zero first, patched at the end. */
  function ToBytes(m: Message): Result<seq<byte>> {
    match PutBody(m, ZERO_COUNTS, |Sections(m)|)
    case Err(e) => Err(e)
    case Ok(w) =>
      var out := PutOpt(w, m.edns).out;
      if |out| < 12 then Err(Internal) else Ok(Patched(out, 4, CountBytes(m)))
  }

  // ---------------------------------------------------------------------------------------------
  // What is written after a position does not depend on the octets before it

  /** Two writers with the same table whose octets agree from `k` on. */
  ghost predicate Moved(a: Writer, b: Writer, k: nat) {
    a.table == b.table && |a.out| == |b.out| >= k && a.out[k..] == b.out[k..]
  }

  lemma DropAppend<T>(s: seq<T>, x: seq<T>, k: nat)
    requires k <= |s|
    ensures (s + x)[k..] == s[k..] + x
  {
  }

  lemma MovedBytes(a: Writer, b: Writer, k: nat, bytes: seq<byte>)
    requires Moved(a, b, k)
    ensures Moved(PutBytes(a, bytes), PutBytes(b, bytes), k)
  {
    DropAppend(a.out, bytes, k);
    DropAppend(b.out, bytes, k);
  }

  lemma MovedName(a: Writer, b: Writer, k: nat, n: Name)
    requires Moved(a, b, k)
    ensures Moved(PutName(a, n), PutName(b, n), k)
  {
    MovedBytes(a, b, k, NameBytes(a.table, n));
  }

  lemma {:induction false} MovedFields(a: Writer, b: Writer, k: nat, fs: seq<Field>, n: nat)
    requires Moved(a, b, k) && n <= |fs|
    ensures Moved(PutFields(a, fs, n), PutFields(b, fs, n), k)
  {
    if n > 0 {
      MovedFields(a, b, k, fs, n - 1);
      var v, v' := PutFields(a, fs, n - 1), PutFields(b, fs, n - 1);
      MovedBytes(v, v', k, FieldBytes(v.table, fs[n - 1]));
    }
  }

  lemma MovedSized(a: Writer, b: Writer, k: nat, fs: seq<Field>)
    requires Moved(a, b, k)
    ensures PutSized(a, fs).Ok? <==> PutSized(b, fs).Ok?
    ensures PutSized(a, fs).Err? ==> PutSized(a, fs) == PutSized(b, fs)
    ensures PutSized(a, fs).Ok? ==> Moved(PutSized(a, fs).value, PutSized(b, fs).value, k)
  {
    var rdata := PatchIsDirect(a, fs);
    var rdata' := PatchIsDirect(b, fs);
    assert rdata' == rdata;
    if |rdata| <= 0xffff {
      MovedBytes(a, b, k, U16Bytes(|rdata|));
      MovedFields(PutBytes(a, U16Bytes(|rdata|)), PutBytes(b, U16Bytes(|rdata|)), k, fs, |fs|);
    }
  }

  lemma MovedRecord(a: Writer, b: Writer, k: nat, r: Record)
    requires Moved(a, b, k)
    ensures PutRecord(a, r).Ok? <==> PutRecord(b, r).Ok?
    ensures PutRecord(a, r).Err? ==> PutRecord(a, r) == PutRecord(b, r)
    ensures PutRecord(a, r).Ok? ==> Moved(PutRecord(a, r).value, PutRecord(b, r).value, k)
  {
    MovedName(a, b, k, r.name);
    MovedBytes(PutName(a, r.name), PutName(b, r.name), k, FixedBytes(r));
    MovedSized(PutBytes(PutName(a, r.name), FixedBytes(r)), PutBytes(PutName(b, r.name), FixedBytes(r)), k, r.rdata);
  }

  lemma {:induction false} MovedQuestions(a: Writer, b: Writer, k: nat, qs: seq<Question>, n: nat)
    requires Moved(a, b, k) && n <= |qs|
    ensures Moved(PutQuestions(a, qs, n), PutQuestions(b, qs, n), k)
  {
    if n > 0 {
      var q, a', b' := qs[n - 1], PutQuestions(a, qs, n - 1), PutQuestions(b, qs, n - 1);
      MovedQuestions(a, b, k, qs, n - 1);
      MovedName(a', b', k, q.qname);
      MovedBytes(PutName(a', q.qname), PutName(b', q.qname), k, U16Bytes(q.qtype) + U16Bytes(q.qclass));
    }
  }

  lemma {:induction false} MovedRecords(a: Writer, b: Writer, k: nat, rs: seq<Record>, n: nat)
    requires Moved(a, b, k) && n <= |rs|
    ensures PutRecords(a, rs, n).Ok? <==> PutRecords(b, rs, n).Ok?
    ensures PutRecords(a, rs, n).Err? ==> PutRecords(a, rs, n) == PutRecords(b, rs, n)
    ensures PutRecords(a, rs, n).Ok? ==> Moved(PutRecords(a, rs, n).value, PutRecords(b, rs, n).value, k)
  {
    if n > 0 {
      MovedRecords(a, b, k, rs, n - 1);
      if PutRecords(a, rs, n - 1).Ok? {
        MovedRecord(PutRecords(a, rs, n - 1).value, PutRecords(b, rs, n - 1).value, k, rs[n - 1]);
      }
    }
  }

  /** Patching the counts in afterwards is writing them in the first place. */
  lemma CountsAreDirect(m: Message)
    ensures ToBytes(m) == match PutBody(m, CountBytes(m), |Sections(m)|)
                          case Err(e) => Err(e)
                          case Ok(w) => Ok(PutOpt(w, m.edns).out)
  {
    var a, b := Writer(StartBytes(m) + ZERO_COUNTS, map[]), Writer(StartBytes(m) + CountBytes(m), map[]);
    var rs := Sections(m);
    MovedQuestions(a, b, 12, m.questions, |m.questions|);
    var qa, qb := PutQuestions(a, m.questions, |m.questions|), PutQuestions(b, m.questions, |m.questions|);
    MovedRecords(qa, qb, 12, rs, |rs|);
    if PutRecords(qb, rs, |rs|).Ok? {
      var wa, wb := PutRecords(qa, rs, |rs|).value, PutRecords(qb, rs, |rs|).value;
      MovedOpt(wa, wb, 12, m.edns);
      BodyGrows(m, ZERO_COUNTS, |rs|);
      BodyGrows(m, CountBytes(m), |rs|);
      OptGrows(wa, m.edns);
      OptGrows(wb, m.edns);
      FillCounts(StartBytes(m), ZERO_COUNTS, CountBytes(m), PutOpt(wa, m.edns).out, PutOpt(wb, m.edns).out);
    }
  }

  lemma MovedOpt(a: Writer, b: Writer, k: nat, edns: Option<Edns>)
    requires Moved(a, b, k)
    ensures Moved(PutOpt(a, edns), PutOpt(b, edns), k)
  {
    if edns.Some? {
      MovedBytes(a, b, k, OptBytes(edns.value));
    }
  }

  lemma FillCounts(start: seq<byte>, zeros: seq<byte>, counts: seq<byte>, out: seq<byte>,
                   direct: seq<byte>)
    requires |start| == 4 && |zeros| == |counts| == 8
    requires start + zeros <= out && start + counts <= direct && out[12..] == direct[12..]
    ensures Patched(out, 4, counts) == direct
  {
    assert out == start + zeros + out[12..];
    assert direct == start + counts + direct[12..];
    PatchMiddle(start, zeros, out[12..], counts);
  }

  lemma OptGrows(w: Writer, edns: Option<Edns>)
    ensures w.out <= PutOpt(w, edns).out
  {
    if edns.Some? {
      PrefixGrow(w.out, OptBytes(edns.value));
    }
  }

  lemma RecordGrows(w: Writer, r: Record)
    requires PutRecord(w, r).Ok?
    ensures w.out <= PutRecord(w, r).value.out
  {
    var u := PutName(w, r.name);
    var x := PutBytes(u, FixedBytes(r));
    var rdata := PatchIsDirect(x, r.rdata);
    PrefixGrows(w.out, NameBytes(w.table, r.name), FixedBytes(r));
    PrefixGrows(x.out, U16Bytes(|rdata|), rdata);
    PrefixTrans(w.out, x.out, PutRecord(w, r).value.out);
  }

  lemma {:induction false} QuestionsGrow(w: Writer, qs: seq<Question>, n: nat)
    requires n <= |qs|
    ensures w.out <= PutQuestions(w, qs, n).out
  {
    if n > 0 {
      var v, q := PutQuestions(w, qs, n - 1), qs[n - 1];
      QuestionsGrow(w, qs, n - 1);
      PrefixGrows(v.out, NameBytes(v.table, q.qname), U16Bytes(q.qtype) + U16Bytes(q.qclass));
      PrefixTrans(w.out, v.out, PutQuestion(v, q).out);
    }
  }

  lemma {:induction false} RecordsGrow(w: Writer, rs: seq<Record>, k: nat, n: nat)
    requires k <= n <= |rs| && PutRecords(w, rs, n).Ok?
    ensures PutRecords(w, rs, k).Ok? && PutRecords(w, rs, k).value.out <= PutRecords(w, rs, n).value.out
  {
    if k < n {
      RecordsGrow(w, rs, k, n - 1);
      var v := PutRecords(w, rs, n - 1).value;
      RecordGrows(v, rs[n - 1]);
      PrefixTrans(PutRecords(w, rs, k).value.out, v.out, PutRecords(w, rs, n).value.out);
    }
  }

  lemma BodyGrows(m: Message, counts: seq<byte>, n: nat)
    requires n <= |Sections(m)| && PutBody(m, counts, n).Ok?
    ensures StartBytes(m) + counts <= PutBody(m, counts, n).value.out
  {
    var w := Writer(StartBytes(m) + counts, map[]);
    var q := PutQuestions(w, m.questions, |m.questions|);
    QuestionsGrow(w, m.questions, |m.questions|);
    RecordsGrow(q, Sections(m), 0, n);
    PrefixTrans(w.out, q.out, PutBody(m, counts, n).value.out);
  }
}
