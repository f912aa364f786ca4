/** Parsing a message, and that parsing undoes serializing (src/message.rs). */
module MessageRoundTrip {
  import opened Octets
  import opened Names
  import opened Compressor
  import opened RData
  import opened Records
  import opened Edns
  import opened HeaderFlags
  import opened Message

  // ---------------------------------------------------------------------------------------------
  // Parsing

  function ParseQuestion(buf: seq<byte>, pos: nat): Result<(Question, nat)> {
    match NameAt(buf, pos)
    case Err(e) => Err(e)
    case Ok(p) =>
      if p.end + 4 > |buf| then Err(Malformed)
      else Ok((Question(p.name, U16At(buf, p.end).value, U16At(buf, p.end + 2).value), p.end + 4))
  }

  /** A parser of one item at an offset: the item and the position past it. */
  type Parser<T> = (seq<byte>, nat) -> Result<(T, nat)>

  function ItemAt<T>(parse: Parser<T>, buf: seq<byte>, pos: nat): Result<(T, nat)> {
    parse(buf, pos)
  }

  /** The first `n` items from `pos` on. */
  function ParseMany<T>(parse: Parser<T>, buf: seq<byte>, pos: nat, n: nat): Result<(seq<T>, nat)> {
    if n == 0 then Ok(([], pos))
    else
      match ParseMany(parse, buf, pos, n - 1)
      case Err(e) => Err(e)
      case Ok((xs, p)) =>
        match ItemAt(parse, buf, p)
        case Err(e) => Err(e)
        case Ok((x, next)) => Ok((xs + [x], next))
  }

  function RecordParser(layout: uint16 -> seq<Kind>): Parser<Record> {
    (buf, pos) => ParseRecord(layout, buf, pos)
  }

  /** The raw options of an OPT record; anything but raw RDATA counts as none. */
  function OptData(r: Record): seq<byte> {
    if |r.rdata| == 1 && r.rdata[0].Raw? then r.rdata[0].octets else []
  }

  /** The EDNS field after an OPT record `r`; a second one is an error. */
  function AddOpt(edns: Option<Edns>, r: Record): Result<Option<Edns>> {
    if edns.Some? then Err(Malformed)
    else
      match ParseOptions(OptData(r))
      case Err(e) => Err(e)
      case Ok(options) => Ok(Some(FromTtl(r.class_, r.ttl, options)))
  }

  /** The additional section so far: ordinary records, the EDNS field, and where the next record is. */
  datatype Extra = Extra(records: seq<Record>, edns: Option<Edns>, pos: nat)

  function AddExtra(x: Extra, r: Record, next: nat): Result<Extra> {
    if r.rrType != OPT then Ok(Extra(x.records + [r], x.edns, next))
    else
      match AddOpt(x.edns, r)
      case Err(e) => Err(e)
      case Ok(edns) => Ok(Extra(x.records, edns, next))
  }

  /** The first `n` records of the additional section, whose OPT record goes to the EDNS field. */
  function ParseExtras(parse: Parser<Record>, buf: seq<byte>, pos: nat, n: nat): Result<Extra> {
    if n == 0 then Ok(Extra([], None, pos))
    else
      match ParseExtras(parse, buf, pos, n - 1)
      case Err(e) => Err(e)
      case Ok(x) =>
        match ItemAt(parse, buf, x.pos)
        case Err(e) => Err(e)
        case Ok((r, next)) => AddExtra(x, r, next)
  }

  /** Everything after the header, given the four counts. */
  function ParseSections(ask: Parser<Question>, parse: Parser<Record>, buf: seq<byte>, id: uint16, flags: Flags,
                         qd: nat, an: nat, ns: nat, ar: nat): Result<Message>
  {
    match ParseMany(ask, buf, 12, qd)
    case Err(e) => Err(e)
    case Ok((questions, p1)) =>
      match ParseMany(parse, buf, p1, an)
      case Err(e) => Err(e)
      case Ok((answers, p2)) =>
        match ParseMany(parse, buf, p2, ns)
        case Err(e) => Err(e)
        case Ok((authorities, p3)) =>
          match ParseExtras(parse, buf, p3, ar)
          case Err(e) => Err(e)
          case Ok(x) => Ok(Message(id, flags, questions, answers, authorities, x.records, x.edns))
  }

  /** `Message::parse`. */
  function ParseMessage(layout: uint16 -> seq<Kind>, buf: seq<byte>): Result<Message> {
    if |buf| < 12 then Err(Malformed)
    else
      var qd, an, ns, ar := U16At(buf, 4).value, U16At(buf, 6).value, U16At(buf, 8).value, U16At(buf, 10).value;
      if qd > MAX_QUESTIONS || an > MAX_SECTION_RECORDS || ns > MAX_SECTION_RECORDS || ar > MAX_SECTION_RECORDS
      then Err(Malformed)
      else
        ParseSections(ParseQuestion, RecordParser(layout), buf, U16At(buf, 0).value, ToFlags(U16At(buf, 2).value), qd,
                      an, ns, ar)
  }

  // ---------------------------------------------------------------------------------------------
  // Questions

  function CanonicalQuestion(q: Question): Question {
    q.(qname := Canonical(q.qname))
  }

  /** Item `k` stands between `ends[k]` and `ends[k + 1]`. */
  ghost predicate StandsIn<T>(parse: Parser<T>, buf: seq<byte>, ends: seq<nat>, items: seq<T>) {
    |ends| == |items| + 1 && forall k :: 0 <= k < |items| ==> ItemAt(parse, buf, ends[k]) == Ok((items[k], ends[k + 1]))
  }

  lemma OneMoreItem<T>(parse: Parser<T>, buf: seq<byte>, pos: nat, n: nat, xs: seq<T>, p: nat, x: T,
                       next: nat)
    requires n > 0 && ParseMany(parse, buf, pos, n - 1) == Ok((xs, p)) && ItemAt(parse, buf, p) == Ok((x, next))
    ensures ParseMany(parse, buf, pos, n) == Ok((xs + [x], next))
  {
  }

  /** Items that stand one after another are parsed one after another. */
  lemma {:induction false} ManyRead<T>(parse: Parser<T>, buf: seq<byte>, ends: seq<nat>, items: seq<T>, lo: nat,
                                       hi: nat)
    requires StandsIn(parse, buf, ends, items) && lo <= hi <= |items|
    ensures ParseMany(parse, buf, ends[lo], hi - lo) == Ok((items[lo..hi], ends[hi]))
    decreases hi
  {
    if lo == hi {
      assert items[lo..hi] == [];
    } else {
      hide ParseMany;
      ManyRead(parse, buf, ends, items, lo, hi - 1);
      SliceSnoc(items, lo, hi);
      OneMoreItem(parse, buf, ends[lo], hi - lo, items[lo..hi - 1], ends[hi - 1], items[hi - 1], ends[hi]);
    }
  }

  lemma QuestionKeeps(w: Writer, patched: set<nat>, q: Question)
    requires Sound(w, patched)
    ensures Sound(PutQuestion(w, q), patched)
  {
    NameKeeps(w, patched, q.qname);
    PlainBytesKeep(PutName(w, q.qname), patched, U16Bytes(q.qtype) + U16Bytes(q.qclass));
  }

  lemma {:induction false} QuestionsKeep(w: Writer, patched: set<nat>, qs: seq<Question>, n: nat)
    requires Sound(w, patched) && n <= |qs|
    ensures Sound(PutQuestions(w, qs, n), patched)
  {
    if n > 0 {
      QuestionsKeep(w, patched, qs, n - 1);
      QuestionKeeps(PutQuestions(w, qs, n - 1), patched, qs[n - 1]);
    }
  }

  /** At `pos` stands a name that ends at `p`, then a type and a class: the question `q`. */
  ghost predicate QuestionAt(buf: seq<byte>, pos: nat, p: nat, q: Question) {
    && NameAt(buf, pos) == Ok(Parsed(q.qname, p)) && p + 4 <= |buf|
    && U16At(buf, p) == Ok(q.qtype) && U16At(buf, p + 2) == Ok(q.qclass)
  }

  lemma TypeAndClass(out: seq<byte>, q: Question, buf: seq<byte>)
    requires out + (U16Bytes(q.qtype) + U16Bytes(q.qclass)) <= buf
    ensures out <= buf && |out| + 4 <= |buf|
    ensures U16At(buf, |out|) == Ok(q.qtype) && U16At(buf, |out| + 2) == Ok(q.qclass)
  {
    var tail := U16Bytes(q.qtype) + U16Bytes(q.qclass);
    PrefixGrow(out, tail);
    PrefixTrans(out, out + tail, buf);
    PrefixHolds(out, tail, buf);
    HoldsParts(buf, |out|, U16Bytes(q.qtype), U16Bytes(q.qclass));
    ReadsU16(buf, |out|, q.qtype);
    ReadsU16(buf, |out| + 2, q.qclass);
  }

  lemma QuestionReads(w: Writer, patched: set<nat>, q: Question, buf: seq<byte>) returns (p: nat)
    requires Sound(w, patched) && Encodable(q.qname) && PutQuestion(w, q).out <= buf
    ensures QuestionAt(buf, |w.out|, p, CanonicalQuestion(q)) && p + 4 == |PutQuestion(w, q).out|
  {
    p := |PutName(w, q.qname).out|;
    TypeAndClass(PutName(w, q.qname).out, q, buf);
    NameReads(w, patched, q.qname, buf);
  }

  lemma QuestionParts(buf: seq<byte>, pos: nat, p: nat, q: Question)
    requires QuestionAt(buf, pos, p, q)
    ensures ParseQuestion(buf, pos) == Ok((q, p + 4))
  {
  }

  lemma QuestionStep(w: Writer, patched: set<nat>, qs: seq<Question>, k: nat, buf: seq<byte>)
    requires Sound(w, patched) && k < |qs| && Encodable(qs[k].qname)
    requires PutQuestions(w, qs, |qs|).out <= buf
    ensures ParseQuestion(buf, |PutQuestions(w, qs, k).out|)
            == Ok((CanonicalQuestion(qs[k]), |PutQuestions(w, qs, k + 1).out|))
  {
    var v := PutQuestions(w, qs, k);
    QuestionsPrefix(w, qs, k + 1, |qs|);
    PrefixTrans(PutQuestions(w, qs, k + 1).out, PutQuestions(w, qs, |qs|).out, buf);
    QuestionsKeep(w, patched, qs, k);
    var p := QuestionReads(v, patched, qs[k], buf);
    QuestionParts(buf, |v.out|, p, CanonicalQuestion(qs[k]));
  }

  lemma {:induction false} QuestionsPrefix(w: Writer, qs: seq<Question>, k: nat, n: nat)
    requires k <= n <= |qs|
    ensures PutQuestions(w, qs, k).out <= PutQuestions(w, qs, n).out
  {
    if k < n {
      var v, q := PutQuestions(w, qs, n - 1), qs[n - 1];
      QuestionsPrefix(w, qs, k, n - 1);
      PrefixGrows(v.out, NameBytes(v.table, q.qname), U16Bytes(q.qtype) + U16Bytes(q.qclass));
      PrefixTrans(v.out, PutName(v, q.qname).out, PutQuestion(v, q).out);
      PrefixTrans(PutQuestions(w, qs, k).out, v.out, PutQuestion(v, q).out);
    }
  }

  lemma QuestionIsAt(parse: Parser<Question>, w: Writer, patched: set<nat>, qs: seq<Question>,
                     k: nat, buf: seq<byte>)
    requires Sound(w, patched) && k < |qs| && Encodable(qs[k].qname) && parse == ParseQuestion
    requires PutQuestions(w, qs, |qs|).out <= buf
    ensures ItemAt(parse, buf, QuestionsEnd(w, qs, k)) == Ok((CanonicalQuestion(qs[k]), QuestionsEnd(w, qs, k + 1)))
  {
    QuestionStep(w, patched, qs, k, buf);
  }

  function QuestionsEnd(w: Writer, qs: seq<Question>, k: nat): nat
    requires k <= |qs|
  {
    |PutQuestions(w, qs, k).out|
  }

  /** Where the questions end, the first of which starts where `w` stops. */
  function QuestionEnds(w: Writer, qs: seq<Question>): (ends: seq<nat>)
    ensures |ends| == |qs| + 1 && forall k :: 0 <= k <= |qs| ==> ends[k] == QuestionsEnd(w, qs, k)
  {
    seq(|qs| + 1, k requires 0 <= k <= |qs| => QuestionsEnd(w, qs, k))
  }

  lemma QuestionsStand(parse: Parser<Question>, w: Writer, patched: set<nat>, qs: seq<Question>,
                       buf: seq<byte>)
    requires Sound(w, patched) && (forall i :: 0 <= i < |qs| ==> Encodable(qs[i].qname))
    requires PutQuestions(w, qs, |qs|).out <= buf && parse == ParseQuestion
    ensures StandsIn(parse, buf, QuestionEnds(w, qs), Map(CanonicalQuestion, qs))
  {
    var ends, items := QuestionEnds(w, qs), Map(CanonicalQuestion, qs);
    forall k | 0 <= k < |qs| ensures ItemAt(parse, buf, ends[k]) == Ok((items[k], ends[k + 1])) {
      QuestionIsAt(parse, w, patched, qs, k, buf);
    }
  }

  // ---------------------------------------------------------------------------------------------
  // Records

  /** The positions of the RDLENGTH fields of the first `n` records. */
  function Holes(w: Writer, rs: seq<Record>, n: nat): set<nat>
    requires n <= |rs|
  {
    if n == 0 then {}
    else
      match PutRecords(w, rs, n - 1)
      case Err(_) => {}
      case Ok(v) => Holes(w, rs, n - 1) + LengthHole(v, rs[n - 1])
  }

  lemma {:induction false} RecordsKeep(w: Writer, patched: set<nat>, rs: seq<Record>, n: nat)
    requires Sound(w, patched) && n <= |rs| && PutRecords(w, rs, n).Ok?
    ensures Sound(PutRecords(w, rs, n).value, patched + Holes(w, rs, n))
  {
    if n == 0 {
      assert patched + Holes(w, rs, 0) == patched;
    } else {
      RecordsKeep(w, patched, rs, n - 1);
      var v := PutRecords(w, rs, n - 1).value;
      RecordKeeps(v, patched + Holes(w, rs, n - 1), rs[n - 1]);
      assert patched + Holes(w, rs, n) == patched + Holes(w, rs, n - 1) + LengthHole(v, rs[n - 1]);
    }
  }

  lemma RecordStep(layout: uint16 -> seq<Kind>, w: Writer, patched: set<nat>, rs: seq<Record>,
                   k: nat, buf: seq<byte>)
    requires Sound(w, patched) && k < |rs| && WellTyped(layout, rs[k])
    requires PutRecords(w, rs, k + 1).Ok? && PutRecords(w, rs, k + 1).value.out <= buf
    ensures PutRecords(w, rs, k).Ok?
    ensures ParseRecord(layout, buf, |PutRecords(w, rs, k).value.out|)
            == Ok((CanonicalRecord(rs[k]), |PutRecords(w, rs, k + 1).value.out|))
  {
    RecordsKeep(w, patched, rs, k);
    RecordReads(layout, PutRecords(w, rs, k).value, patched + Holes(w, rs, k), rs[k], buf);
  }

  function RecordsEnd(w: Writer, rs: seq<Record>, k: nat): nat
    requires k <= |rs|
  {
    match PutRecords(w, rs, k)
    case Err(_) => 0
    case Ok(v) => |v.out|
  }

  lemma RecordAt(parse: Parser<Record>, layout: uint16 -> seq<Kind>, w: Writer, patched: set<nat>,
                 rs: seq<Record>, k: nat, buf: seq<byte>)
    requires Sound(w, patched) && k < |rs| && WellTyped(layout, rs[k]) && parse == RecordParser(layout)
    requires PutRecords(w, rs, |rs|).Ok? && PutRecords(w, rs, |rs|).value.out <= buf
    ensures ItemAt(parse, buf, RecordsEnd(w, rs, k)) == Ok((CanonicalRecord(rs[k]), RecordsEnd(w, rs, k + 1)))
  {
    RecordsGrow(w, rs, k + 1, |rs|);
    PrefixTrans(PutRecords(w, rs, k + 1).value.out, PutRecords(w, rs, |rs|).value.out, buf);
    RecordStep(layout, w, patched, rs, k, buf);
  }

  /** Where the records of a run of records end, the first of which starts where `w` stops. */
  function RecordEnds(w: Writer, rs: seq<Record>): (ends: seq<nat>)
    ensures |ends| == |rs| + 1 && forall k :: 0 <= k <= |rs| ==> ends[k] == RecordsEnd(w, rs, k)
  {
    seq(|rs| + 1, k requires 0 <= k <= |rs| => RecordsEnd(w, rs, k))
  }

  lemma RecordsStand(parse: Parser<Record>, layout: uint16 -> seq<Kind>, w: Writer,
                     patched: set<nat>, rs: seq<Record>, buf: seq<byte>)
    requires Sound(w, patched) && (forall i :: 0 <= i < |rs| ==> WellTyped(layout, rs[i]))
    requires PutRecords(w, rs, |rs|).Ok? && PutRecords(w, rs, |rs|).value.out <= buf && parse == RecordParser(layout)
    ensures StandsIn(parse, buf, RecordEnds(w, rs), Map(CanonicalRecord, rs))
  {
    var ends, items := RecordEnds(w, rs), Map(CanonicalRecord, rs);
    forall k | 0 <= k < |rs| ensures ItemAt(parse, buf, ends[k]) == Ok((items[k], ends[k + 1])) {
      RecordAt(parse, layout, w, patched, rs, k, buf);
    }
  }
}
