/** The two theorems of the codec: parsing undoes serializing, and the compression table stays sound
    through every record and every patch (src/message.rs). */
module Codec {
  import opened Octets
  import opened Names
  import opened Compressor
  import opened RData
  import opened TypeBitmap
  import opened Records
  import opened Edns
  import opened HeaderFlags
  import opened Message
  import opened MessageRoundTrip

  // ---------------------------------------------------------------------------------------------
  // The additional section and its OPT record

  lemma OneMoreExtra(parse: Parser<Record>, buf: seq<byte>, pos: nat, n: nat, rs: seq<Record>, p: nat,
                     r: Record, next: nat)
    requires n > 0 && ParseExtras(parse, buf, pos, n - 1) == Ok(Extra(rs, None, p))
    requires ItemAt(parse, buf, p) == Ok((r, next)) && r.rrType != OPT
    ensures ParseExtras(parse, buf, pos, n) == Ok(Extra(rs + [r], None, next))
  {
    var x := Extra(rs, None, p);
    assert AddExtra(x, r, next) == Ok(Extra(rs + [r], None, next));
    hide AddExtra;
  }

  /** Ordinary additional records come back as they stand. */
  lemma {:induction false} ExtrasRead(parse: Parser<Record>, buf: seq<byte>, ends: seq<nat>, items: seq<Record>,
                                      lo: nat, hi: nat)
    requires StandsIn(parse, buf, ends, items) && lo <= hi <= |items|
    requires forall k :: lo <= k < hi ==> items[k].rrType != OPT
    ensures ParseExtras(parse, buf, ends[lo], hi - lo) == Ok(Extra(items[lo..hi], None, ends[hi]))
    decreases hi
  {
    if lo == hi {
      assert items[lo..hi] == [];
    } else {
      hide ParseExtras;
      ExtrasRead(parse, buf, ends, items, lo, hi - 1);
      SliceSnoc(items, lo, hi);
      OneMoreExtra(parse, buf, ends[lo], hi - lo, items[lo..hi - 1], ends[hi - 1], items[hi - 1], ends[hi]);
    }
  }

  ghost predicate FaithfulEdns(e: Edns) {
    (forall i :: 0 <= i < |e.options| ==> Faithful(e.options[i])) && |OptionsWire(e.options)| <= 0xffff
  }

  lemma AddsOpt(e: Edns)
    requires FaithfulEdns(e)
    ensures AddOpt(None, OptRecord(e)) == Ok(Some(e))
  {
    OptionsRoundTrip(e.options);
    TtlRoundTrip(e);
  }

  lemma ExtrasWithOpt(parse: Parser<Record>, buf: seq<byte>, pos: nat, n: nat, rs: seq<Record>,
                      p: nat, opt: Record, e: Edns, next: nat)
    requires ParseExtras(parse, buf, pos, n) == Ok(Extra(rs, None, p))
    requires ItemAt(parse, buf, p) == Ok((opt, next)) && opt.rrType == OPT && AddOpt(None, opt) == Ok(Some(e))
    ensures ParseExtras(parse, buf, pos, n + 1) == Ok(Extra(rs, Some(e), next))
  {
  }

  lemma {:induction false} Fields1(w: Writer, data: seq<byte>)
    ensures Appended(w.table, |w.out| + 2, [Raw(data)], 1) == Writer(data, w.table)
    ensures PutFields(w, [Raw(data)], 1) == Writer(w.out + data, w.table)
  {
    var none := Appended(w.table, |w.out| + 2, [Raw(data)], 0);
    assert none.out + data == data;
  }

  lemma SizedRaw(w: Writer, data: seq<byte>)
    requires |data| <= 0xffff
    ensures PutSized(w, [Raw(data)]) == Ok(PutBytes(PutBytes(w, U16Bytes(|data|)), data))
  {
    Fields1(w, data);
    Fields1(PutBytes(w, U16Bytes(|data|)), data);
    var rdata := PatchIsDirect(w, [Raw(data)]);
  }

  lemma OptParts(e: Edns, fixed: seq<byte>, data: seq<byte>)
    requires fixed == FixedBytes(OptRecord(e)) && data == OptionsWire(e.options) && |data| <= 0xffff
    ensures OptBytes(e) == [0] + fixed + U16Bytes(|data|) + data
  {
  }

  /** The OPT record is a record like any other: the root owner, its options as raw RDATA. */
  lemma OptIsRecord(w: Writer, e: Edns)
    requires |OptionsWire(e.options)| <= 0xffff
    ensures PutRecord(w, OptRecord(e)) == Ok(PutBytes(w, OptBytes(e)))
  {
    var fixed, data := FixedBytes(OptRecord(e)), OptionsWire(e.options);
    OptParts(e, fixed, data);
    OptJoins(w.out, fixed, U16Bytes(|data|), data);
    SizedRaw(Writer(w.out + [0] + fixed, w.table), data);
  }

  lemma OptReads(layout: uint16 -> seq<Kind>, w: Writer, patched: set<nat>, e: Edns, buf: seq<byte>)
    requires Sound(w, patched) && layout(OPT) == [Rest] && |OptionsWire(e.options)| <= 0xffff
    requires PutBytes(w, OptBytes(e)).out <= buf
    ensures ParseRecord(layout, buf, |w.out|) == Ok((OptRecord(e), |PutBytes(w, OptBytes(e)).out|))
  {
    OptIsRecord(w, e);
    OptCanonical(e);
    RecordReads(layout, w, patched, OptRecord(e), buf);
  }

  lemma OptCanonical(e: Edns)
    ensures CanonicalRecord(OptRecord(e)) == OptRecord(e)
  {
    var fs := OptRecord(e).rdata;
    assert CanonicalFields(fs, 0) + [fs[0]] == fs;
  }

  // ---------------------------------------------------------------------------------------------
  // The sections in order

  lemma MapSlice<A, B>(f: A -> B, s: seq<A>, lo: nat, hi: nat, part: seq<A>)
    requires lo <= hi <= |s| && part == s[lo..hi]
    ensures Map(f, s)[lo..hi] == Map(f, part)
  {
  }

  lemma SectionRead<A, B>(parse: Parser<B>, buf: seq<byte>, ends: seq<nat>, f: A -> B, xs: seq<A>,
                          lo: nat, hi: nat, part: seq<A>)
    requires StandsIn(parse, buf, ends, Map(f, xs)) && lo <= hi <= |xs| && part == xs[lo..hi]
    ensures ParseMany(parse, buf, ends[lo], hi - lo) == Ok((Map(f, part), ends[hi]))
  {
    MapSlice(f, xs, lo, hi, part);
    ManyRead(parse, buf, ends, Map(f, xs), lo, hi);
  }

  lemma ExtraSectionRead(parse: Parser<Record>, buf: seq<byte>, ends: seq<nat>,
                         f: Record -> Record, rs: seq<Record>, lo: nat, hi: nat, part: seq<Record>)
    requires StandsIn(parse, buf, ends, Map(f, rs)) && lo <= hi <= |rs| && part == rs[lo..hi]
    requires forall i :: 0 <= i < |part| ==> f(part[i]).rrType != OPT
    ensures ParseExtras(parse, buf, ends[lo], hi - lo) == Ok(Extra(Map(f, part), None, ends[hi]))
  {
    var items := Map(f, rs);
    MapSlice(f, rs, lo, hi, part);
    forall k | lo <= k < hi ensures items[k].rrType != OPT {
      assert items[k] == f(part[k - lo]);
    }
    ExtrasRead(parse, buf, ends, items, lo, hi);
  }

  /** What the parser finds in the three record sections. */
  lemma {:induction false} SectionsRead(parse: Parser<Record>, buf: seq<byte>, ends: seq<nat>, m: Message)
    requires StandsIn(parse, buf, ends, Map(CanonicalRecord, Sections(m)))
    requires forall i :: 0 <= i < |m.additionals| ==> m.additionals[i].rrType != OPT
    ensures var a, b, n := |m.answers|, |m.answers| + |m.authorities|, |Sections(m)|;
            && ParseMany(parse, buf, ends[0], a) == Ok((Map(CanonicalRecord, m.answers), ends[a]))
            && ParseMany(parse, buf, ends[a], b - a) == Ok((Map(CanonicalRecord, m.authorities), ends[b]))
            && ParseExtras(parse, buf, ends[b], n - b) == Ok(Extra(Map(CanonicalRecord, m.additionals), None, ends[n]))
  {
    var rs, a, b := Sections(m), |m.answers|, |m.answers| + |m.authorities|;
    SectionParts(m);
    SectionRead(parse, buf, ends, CanonicalRecord, rs, 0, a, m.answers);
    SectionRead(parse, buf, ends, CanonicalRecord, rs, a, b, m.authorities);
    ExtraSectionRead(parse, buf, ends, CanonicalRecord, rs, b, |rs|, m.additionals);
  }

  function OptCount(m: Message): nat {
    if m.edns.Some? then 1 else 0
  }

  function CanonicalMessage(m: Message): Message {
    m.(questions := Map(CanonicalQuestion, m.questions), answers := Map(CanonicalRecord, m.answers),
       authorities := Map(CanonicalRecord, m.authorities), additionals := Map(CanonicalRecord, m.additionals))
  }

  /** The message a parser assembles from the parts it finds. */
  lemma PartsMakeMessage(ask: Parser<Question>, parse: Parser<Record>, buf: seq<byte>, qd: nat,
                         an: nat, ns: nat, ar: nat, m: Message, p1: nat, p2: nat, p3: nat, p4: nat)
    requires ParseMany(ask, buf, 12, qd) == Ok((m.questions, p1))
    requires ParseMany(parse, buf, p1, an) == Ok((m.answers, p2))
    requires ParseMany(parse, buf, p2, ns) == Ok((m.authorities, p3))
    requires ParseExtras(parse, buf, p3, ar) == Ok(Extra(m.additionals, m.edns, p4))
    ensures ParseSections(ask, parse, buf, m.id, m.flags, qd, an, ns, ar) == Ok(m)
  {
  }

  ghost predicate WithinCounts(m: Message) {
    && |m.questions| <= 16 && |m.answers| <= 4096 && |m.authorities| <= 4096 && |m.additionals| + OptCount(m) <= 4096
  }

  lemma HeaderParts(id: uint16, word: uint16, qd: uint16, an: uint16, ns: uint16, ar: uint16,
                    buf: seq<byte>)
    requires U16Bytes(id) + U16Bytes(word) + (U16Bytes(qd) + U16Bytes(an) + U16Bytes(ns) + U16Bytes(ar)) <= buf
    ensures |buf| >= 12 && U16At(buf, 0) == Ok(id) && U16At(buf, 2) == Ok(word) && U16At(buf, 4) == Ok(qd)
    ensures U16At(buf, 6) == Ok(an) && U16At(buf, 8) == Ok(ns) && U16At(buf, 10) == Ok(ar)
  {
    hide U16Bytes, U16At, HoldsAt;
    FourWords(U16Bytes(id) + U16Bytes(word), U16Bytes(qd), U16Bytes(an), U16Bytes(ns), U16Bytes(ar), buf);
    HoldsParts(buf, 0, U16Bytes(id), U16Bytes(word));
    ReadsU16(buf, 0, id);
    ReadsU16(buf, 2, word);
    ReadsU16(buf, 4, qd);
    ReadsU16(buf, 6, an);
    ReadsU16(buf, 8, ns);
    ReadsU16(buf, 10, ar);
  }

  lemma HeaderOf(m: Message)
    requires WithinCounts(m)
    ensures StartBytes(m) + CountBytes(m)
            == U16Bytes(m.id) + U16Bytes(FlagsWord(m.flags))
               + (U16Bytes(|m.questions|) + U16Bytes(|m.answers|) + U16Bytes(|m.authorities|)
                  + U16Bytes(|m.additionals| + OptCount(m)))
  {
    hide U16Bytes, FlagsWord;
  }

  lemma FourWords(start: seq<byte>, a: seq<byte>, b: seq<byte>, c: seq<byte>, d: seq<byte>,
                  buf: seq<byte>)
    requires |start| == 4 && |a| == |b| == |c| == |d| == 2 && start + (a + b + c + d) <= buf
    ensures HoldsAt(buf, 0, start) && HoldsAt(buf, 4, a) && HoldsAt(buf, 6, b) && HoldsAt(buf, 8, c)
    ensures HoldsAt(buf, 10, d)
  {
    PrefixHolds([], start + (a + b + c + d), buf);
    HoldsParts(buf, 0, start, a + b + c + d);
    HoldsParts(buf, 4, a + b + c, d);
    HoldsParts(buf, 4, a + b, c);
    HoldsParts(buf, 4, a, b);
  }

  // ---------------------------------------------------------------------------------------------
  // Parsing undoes serializing

  /** What a message must satisfy to survive the wire up to letter case and the order of type bitmaps. */
  ghost predicate WellFormedFor(layout: uint16 -> seq<Kind>, m: Message) {
    && WithinCounts(m)
    && m.flags.opcode < 16 && m.flags.rcode < 16
    && (forall i :: 0 <= i < |m.questions| ==> Encodable(m.questions[i].qname))
    && (forall i :: 0 <= i < |Sections(m)| ==> WellTyped(layout, Sections(m)[i]))
    && (forall i :: 0 <= i < |m.additionals| ==> m.additionals[i].rrType != OPT)
    && (m.edns.Some? ==> FaithfulEdns(m.edns.value))
  }

  /** The writer before the questions, with the counts in place. */
  function Start(m: Message): Writer {
    Writer(StartBytes(m) + CountBytes(m), map[])
  }

  function AfterQuestions(m: Message): Writer {
    PutQuestions(Start(m), m.questions, |m.questions|)
  }

  lemma StartIsSound(m: Message, patched: set<nat>)
    requires forall i :: i in patched ==> i < 12
    ensures Sound(Start(m), patched)
  {
  }

  /** Where the questions, the records and the OPT record of `m` stand in `buf`. */
  ghost predicate Found(ask: Parser<Question>, parse: Parser<Record>, buf: seq<byte>, m: Message, asked: seq<nat>,
                        ends: seq<nat>, last: nat) {
    && StandsIn(ask, buf, asked, Map(CanonicalQuestion, m.questions)) && asked[0] == 12
    && StandsIn(parse, buf, ends, Map(CanonicalRecord, Sections(m))) && asked[|m.questions|] == ends[0]
    && match m.edns
       case None => last == ends[|Sections(m)|]
       case Some(e) => ItemAt(parse, buf, ends[|Sections(m)|]) == Ok((OptRecord(e), last))
  }

  /** The additional section, with its OPT record if there is one. */
  lemma OptSectionReads(parse: Parser<Record>, buf: seq<byte>, pos: nat, n: nat, count: nat,
                        rs: seq<Record>, p: nat, edns: Option<Edns>, last: nat)
    requires ParseExtras(parse, buf, pos, n) == Ok(Extra(rs, None, p))
    requires match edns
             case None => count == n && last == p
             case Some(e) => count == n + 1 && FaithfulEdns(e) && ItemAt(parse, buf, p) == Ok((OptRecord(e), last))
    ensures ParseExtras(parse, buf, pos, count) == Ok(Extra(rs, edns, last))
  {
    if edns.Some? {
      AddsOpt(edns.value);
      ExtrasWithOpt(parse, buf, pos, n, rs, p, OptRecord(edns.value), edns.value, last);
    }
  }

  /** What stands in the sections is what the parser makes of them. */
  lemma FoundIsParsed(ask: Parser<Question>, parse: Parser<Record>, buf: seq<byte>, m: Message,
                      asked: seq<nat>, ends: seq<nat>, last: nat, ar: nat)
    requires Found(ask, parse, buf, m, asked, ends, last) && ar == |m.additionals| + OptCount(m)
    requires forall i :: 0 <= i < |m.additionals| ==> m.additionals[i].rrType != OPT
    requires m.edns.Some? ==> FaithfulEdns(m.edns.value)
    ensures ParseSections(ask, parse, buf, m.id, m.flags, |m.questions|, |m.answers|, |m.authorities|, ar)
            == Ok(CanonicalMessage(m))
  {
    var a, b, n, qs := |m.answers|, |m.answers| + |m.authorities|, |Sections(m)|, m.questions;
    TakeAll(qs);
    SectionRead(ask, buf, asked, CanonicalQuestion, qs, 0, |qs|, qs);
    SectionsRead(parse, buf, ends, m);
    OptSectionReads(parse, buf, ends[b], n - b, ar, Map(CanonicalRecord, m.additionals), ends[n], m.edns, last);
    PartsMakeMessage(ask, parse, buf, |qs|, a, b - a, ar, CanonicalMessage(m), ends[0], ends[a], ends[b], last);
  }

  lemma PrefixesOf(m: Message, w: Writer)
    requires PutRecords(AfterQuestions(m), Sections(m), |Sections(m)|) == Ok(w)
    ensures var out := PutOpt(w, m.edns).out;
            StartBytes(m) + CountBytes(m) <= out && AfterQuestions(m).out <= out && w.out <= out
  {
    var out := PutOpt(w, m.edns).out;
    OptGrows(w, m.edns);
    RecordsGrow(AfterQuestions(m), Sections(m), 0, |Sections(m)|);
    QuestionsGrow(Start(m), m.questions, |m.questions|);
    PrefixTrans(AfterQuestions(m).out, w.out, out);
    PrefixTrans(Start(m).out, AfterQuestions(m).out, out);
  }

  lemma WriterIsSound(m: Message, w: Writer)
    requires PutRecords(AfterQuestions(m), Sections(m), |Sections(m)|) == Ok(w)
    ensures Sound(w, Holes(AfterQuestions(m), Sections(m), |Sections(m)|))
  {
    StartIsSound(m, {});
    QuestionsKeep(Start(m), {}, m.questions, |m.questions|);
    RecordsKeep(AfterQuestions(m), {}, Sections(m), |Sections(m)|);
    var holes := Holes(AfterQuestions(m), Sections(m), |Sections(m)|);
    assert {} + holes == holes;
  }

  /** The four counts and the octets that hold them. */
  ghost predicate HeaderHolds(buf: seq<byte>, id: uint16, word: uint16, qd: uint16, an: uint16, ns: uint16,
                              ar: uint16)
  {
    && |buf| >= 12 && U16At(buf, 0) == Ok(id) && U16At(buf, 2) == Ok(word)
    && U16At(buf, 4) == Ok(qd) && U16At(buf, 6) == Ok(an) && U16At(buf, 8) == Ok(ns) && U16At(buf, 10) == Ok(ar)
    && qd <= MAX_QUESTIONS
    && an <= MAX_SECTION_RECORDS && ns <= MAX_SECTION_RECORDS && ar <= MAX_SECTION_RECORDS
  }

  lemma HeaderThenSections(layout: uint16 -> seq<Kind>, buf: seq<byte>, id: uint16, word: uint16,
                           flags: Flags, qd: uint16, an: uint16, ns: uint16, ar: uint16, m: Message)
    requires HeaderHolds(buf, id, word, qd, an, ns, ar) && ToFlags(word) == flags
    requires ParseSections(ParseQuestion, RecordParser(layout), buf, id, flags, qd, an, ns, ar) == Ok(m)
    ensures ParseMessage(layout, buf) == Ok(m)
  {
  }

  lemma OptStands(layout: uint16 -> seq<Kind>, parse: Parser<Record>, w: Writer, patched: set<nat>,
                  e: Edns, buf: seq<byte>) returns (last: nat)
    requires Sound(w, patched) && layout(OPT) == [Rest] && FaithfulEdns(e) && parse == RecordParser(layout)
    requires PutOpt(w, Some(e)).out <= buf
    ensures ItemAt(parse, buf, |w.out|) == Ok((OptRecord(e), last))
  {
    last := |PutBytes(w, OptBytes(e)).out|;
    OptReads(layout, w, patched, e, buf);
  }

  /** Everything stands where it was written. */
  lemma WrittenIsFound(layout: uint16 -> seq<Kind>, ask: Parser<Question>, parse: Parser<Record>,
                       m: Message, w: Writer, buf: seq<byte>)
    returns (asked: seq<nat>, ends: seq<nat>, last: nat)
    requires WellFormedFor(layout, m) && layout(OPT) == [Rest] && ask == ParseQuestion && parse == RecordParser(layout)
    requires PutRecords(AfterQuestions(m), Sections(m), |Sections(m)|) == Ok(w) && buf == PutOpt(w, m.edns).out
    ensures Found(ask, parse, buf, m, asked, ends, last)
  {
    var q := AfterQuestions(m);
    PrefixesOf(m, w);
    StartIsSound(m, {});
    QuestionsKeep(Start(m), {}, m.questions, |m.questions|);
    asked, ends, last := QuestionEnds(Start(m), m.questions), RecordEnds(q, Sections(m)), |w.out|;
    QuestionsStand(ask, Start(m), {}, m.questions, buf);
    RecordsStand(parse, layout, q, {}, Sections(m), buf);
    if m.edns.Some? {
      WriterIsSound(m, w);
      last := OptStands(layout, parse, w, Holes(q, Sections(m), |Sections(m)|), m.edns.value, buf);
    }
  }

  lemma HeaderStands(m: Message, buf: seq<byte>)
    requires WithinCounts(m) && StartBytes(m) + CountBytes(m) <= buf
    ensures HeaderHolds(buf, m.id, FlagsWord(m.flags), |m.questions|, |m.answers|, |m.authorities|,
                        |m.additionals| + OptCount(m))
  {
    HeaderOf(m);
    hide U16Bytes, FlagsWord, StartBytes, CountBytes, U16At;
    HeaderParts(m.id, FlagsWord(m.flags), |m.questions|, |m.answers|, |m.authorities|,
                |m.additionals| + OptCount(m), buf);
  }

  lemma ReadsBackFor(layout: uint16 -> seq<Kind>, m: Message)
    requires WellFormedFor(layout, m) && layout(OPT) == [Rest]
    ensures ToBytes(m).Ok? ==> ParseMessage(layout, ToBytes(m).value) == Ok(CanonicalMessage(m))
  {
    hide U16Bytes, FlagsWord, StartBytes, CountBytes, U16At, HeaderHolds, Found;
    if ToBytes(m).Ok? {
      var bytes := ToBytes(m).value;
      var ask: Parser<Question>, parse, ar := ParseQuestion, RecordParser(layout), |m.additionals| + OptCount(m);
      CountsAreDirect(m);
      var w := PutRecords(AfterQuestions(m), Sections(m), |Sections(m)|).value;
      var asked, ends, last := WrittenIsFound(layout, ask, parse, m, w, bytes);
      FoundIsParsed(ask, parse, bytes, m, asked, ends, last, ar);
      PrefixesOf(m, w);
      HeaderStands(m, bytes);
      FlagsRoundTrip(m.flags);
      HeaderThenSections(layout, bytes, m.id, FlagsWord(m.flags), m.flags, |m.questions|, |m.answers|, |m.authorities|,
                         ar, CanonicalMessage(m));
    }
  }

  // ---------------------------------------------------------------------------------------------
  // The round trip, for the record types the program knows

  /** Only the last field of a layout reads to the end of the data. */
  lemma LayoutIsPrefixFree(t: uint16)
    ensures forall i :: 0 <= i < |Layout(t)| - 1 ==> !Greedy(Layout(t)[i])
  {
    match t
    case 6 =>
    case 46 =>
    case 24 =>
    case _ =>
  }

  /** RDATA with the fields of its type, and names of at most 255 octets and 126 labels. */
  ghost predicate FitsType(r: Record) {
    && Encodable(r.name) && |r.rdata| == |Layout(r.rrType)|
    && forall i :: 0 <= i < |r.rdata| ==> Fits(r.rdata[i], Layout(r.rrType)[i])
  }

  lemma FitsTypeIsWellTyped(r: Record)
    requires FitsType(r)
    ensures WellTyped(Layout, r)
  {
    LayoutIsPrefixFree(r.rrType);
  }

  /** What a message must satisfy to survive the wire up to letter case and the order of type bitmaps. */
  ghost predicate WellFormed(m: Message) {
    && WithinCounts(m)
    && m.flags.opcode < 16 && m.flags.rcode < 16
    && (forall i :: 0 <= i < |m.questions| ==> Encodable(m.questions[i].qname))
    && (forall i :: 0 <= i < |Sections(m)| ==> FitsType(Sections(m)[i]))
    && (forall i :: 0 <= i < |m.additionals| ==> m.additionals[i].rrType != OPT)
    && (m.edns.Some? ==> FaithfulEdns(m.edns.value))
  }

  ghost predicate SettledField(f: Field) {
    match f
    case Domain(n, _) => LowerCase(n)
    case Types(ts) => Ascending(ts)
    case _ => true
  }

  /** Names in lower case, as the program stores them, and type bitmaps strictly ascending. */
  ghost predicate SettledRecord(r: Record) {
    LowerCase(r.name) && forall i :: 0 <= i < |r.rdata| ==> SettledField(r.rdata[i])
  }

  ghost predicate Settled(m: Message) {
    && (forall i :: 0 <= i < |m.questions| ==> LowerCase(m.questions[i].qname))
    && (forall i :: 0 <= i < |m.answers| ==> SettledRecord(m.answers[i]))
    && (forall i :: 0 <= i < |m.authorities| ==> SettledRecord(m.authorities[i]))
    && (forall i :: 0 <= i < |m.additionals| ==> SettledRecord(m.additionals[i]))
  }

  lemma FieldSettles(f: Field)
    ensures CanonicalField(f) == f <==> SettledField(f)
  {
    match f
    case Domain(n, _) => CanonicalKeepsShape(n);
    case Types(ts) =>
      SortDedupSorts(ts);
      if Ascending(ts) {
        SortDedupId(ts);
      }
    case _ =>
  }

  lemma {:induction false} CanonicalFieldAt(fs: seq<Field>, n: nat, i: nat)
    requires i < n <= |fs|
    ensures CanonicalFields(fs, n)[i] == CanonicalField(fs[i])
  {
    if i < n - 1 {
      CanonicalFieldAt(fs, n - 1, i);
    }
  }

  lemma RecordSettles(r: Record)
    ensures CanonicalRecord(r) == r <==> SettledRecord(r)
  {
    var c := CanonicalFields(r.rdata, |r.rdata|);
    CanonicalKeepsShape(r.name);
    forall i | 0 <= i < |r.rdata| ensures c[i] == r.rdata[i] <==> SettledField(r.rdata[i]) {
      CanonicalFieldAt(r.rdata, |r.rdata|, i);
      FieldSettles(r.rdata[i]);
    }
    assert c == r.rdata <==> forall i :: 0 <= i < |r.rdata| ==> SettledField(r.rdata[i]);
  }

  lemma MapSettles<T>(f: T -> T, s: seq<T>, fixed: T -> bool)
    requires forall i :: 0 <= i < |s| ==> (f(s[i]) == s[i] <==> fixed(s[i]))
    ensures Map(f, s) == s <==> forall i :: 0 <= i < |s| ==> fixed(s[i])
  {
  }

  lemma RecordsSettle(rs: seq<Record>)
    ensures Map(CanonicalRecord, rs) == rs <==> forall i :: 0 <= i < |rs| ==> SettledRecord(rs[i])
  {
    forall i | 0 <= i < |rs| ensures CanonicalRecord(rs[i]) == rs[i] <==> SettledRecord(rs[i]) {
      RecordSettles(rs[i]);
    }
    MapSettles(CanonicalRecord, rs, SettledRecord);
  }

  lemma QuestionsSettle(qs: seq<Question>)
    ensures Map(CanonicalQuestion, qs) == qs <==> forall i :: 0 <= i < |qs| ==> LowerCase(qs[i].qname)
  {
    forall i | 0 <= i < |qs| ensures CanonicalQuestion(qs[i]) == qs[i] <==> LowerCase(qs[i].qname) {
      CanonicalKeepsShape(qs[i].qname);
    }
    assert forall i :: 0 <= i < |qs| ==> Map(CanonicalQuestion, qs)[i] == CanonicalQuestion(qs[i]);
  }

  lemma MessageSettles(m: Message)
    ensures CanonicalMessage(m) == m <==> Settled(m)
  {
    QuestionsSettle(m.questions);
    RecordsSettle(m.answers);
    RecordsSettle(m.authorities);
    RecordsSettle(m.additionals);
  }

  lemma ReadsBack(m: Message)
    requires WellFormed(m)
    ensures ToBytes(m).Ok? ==> ParseMessage(Layout, ToBytes(m).value) == Ok(CanonicalMessage(m))
  {
    assert Layout(OPT) == [Rest];
    hide ParseMessage, ToBytes, CanonicalMessage, Layout;
    forall i | 0 <= i < |Sections(m)| ensures WellTyped(Layout, Sections(m)[i]) {
      FitsTypeIsWellTyped(Sections(m)[i]);
    }
    ReadsBackFor(Layout, m);
  }

  // ---------------------------------------------------------------------------------------------
  // No message with RDATA of at most 65535 octets is refused

  /** The size of a field with its name in full. */
  function FullSize(f: Field): nat {
    if f.Domain? then |Wire(f.name)| else |FieldBytes(map[], f)|
  }

  function FullSizes(fs: seq<Field>, n: nat): nat
    requires n <= |fs|
  {
    if n == 0 then 0 else FullSizes(fs, n - 1) + FullSize(fs[n - 1])
  }

  ghost predicate RDataFits(m: Message) {
    forall i :: 0 <= i < |Sections(m)| ==> FullSizes(Sections(m)[i].rdata, |Sections(m)[i].rdata|) <= 0xffff
  }

  /** Compression never makes a name longer. */
  lemma {:induction false} NameNoLonger(t: Table, n: Name)
    ensures |NameBytes(t, n)| <= |Wire(n)|
  {
    if n.Sub? && n !in t {
      NameNoLonger(t, n.parent);
    }
  }

  lemma {:induction false} FieldsNoLonger(w: Writer, fs: seq<Field>, n: nat)
    requires n <= |fs|
    ensures |PutFields(w, fs, n).out| <= |w.out| + FullSizes(fs, n)
  {
    if n > 0 {
      FieldsNoLonger(w, fs, n - 1);
      var t, f := PutFields(w, fs, n - 1).table, fs[n - 1];
      if f.Domain? {
        NameNoLonger(t, f.name);
      }
    }
  }

  lemma RecordWrites(w: Writer, r: Record)
    requires FullSizes(r.rdata, |r.rdata|) <= 0xffff
    ensures PutRecord(w, r).Ok?
  {
    FieldsNoLonger(PutBytes(PutBytes(PutName(w, r.name), FixedBytes(r)), [0, 0]), r.rdata, |r.rdata|);
  }

  lemma {:induction false} RecordsWrite(w: Writer, rs: seq<Record>, n: nat)
    requires n <= |rs| && forall i :: 0 <= i < n ==> FullSizes(rs[i].rdata, |rs[i].rdata|) <= 0xffff
    ensures PutRecords(w, rs, n).Ok?
  {
    hide PutRecord, FullSizes;
    if n > 0 {
      RecordsWrite(w, rs, n - 1);
      RecordWrites(PutRecords(w, rs, n - 1).value, rs[n - 1]);
    }
  }

  lemma MessageWrites(m: Message)
    requires RDataFits(m)
    ensures ToBytes(m).Ok?
  {
    RecordsWrite(AfterQuestions(m), Sections(m), |Sections(m)|);
    CountsAreDirect(m);
  }

  /** Parsing a serialized message gives the message back, its names in lower case and its type bitmaps
      ascending: exactly the message, if and only if they already were. Nothing is refused unless some
      RDATA is over 65535 octets with its names in full. */
  lemma RoundTrip(m: Message)
    requires WellFormed(m)
    ensures RDataFits(m) ==> ToBytes(m).Ok?
    ensures ToBytes(m).Ok? ==> ParseMessage(Layout, ToBytes(m).value) == Ok(CanonicalMessage(m))
    ensures ToBytes(m).Ok? ==> (ParseMessage(Layout, ToBytes(m).value) == Ok(m) <==> Settled(m))
  {
    hide *;
    if RDataFits(m) {
      MessageWrites(m);
    }
    ReadsBack(m);
    MessageSettles(m);
  }

  // ---------------------------------------------------------------------------------------------
  // The table, through a whole message

  /** The section counts and the RDLENGTH fields of the first `n` records: all that is ever patched. */
  function PatchedPositions(m: Message, n: nat): set<nat>
    requires n <= |Sections(m)|
  {
    {4, 5, 6, 7, 8, 9, 10, 11}
    + Holes(PutQuestions(Writer(StartBytes(m) + ZERO_COUNTS, map[]), m.questions, |m.questions|), Sections(m), n)
  }

  /** After the header, the questions and any number of records, every recorded suffix is spelled at its
      offset, which a pointer can reach; the octets that spell it hold at most as many pointers as the
      suffix has labels, and none of them is patched. */
  lemma TableInvariant(m: Message, n: nat, w: Writer)
    requires n <= |Sections(m)| && PutBody(m, ZERO_COUNTS, n) == Ok(w)
    ensures Sound(w, PatchedPositions(m, n))
  {
    var w0, counts := Writer(StartBytes(m) + ZERO_COUNTS, map[]), {4, 5, 6, 7, 8, 9, 10, 11};
    assert Sound(w0, counts);
    QuestionsKeep(w0, counts, m.questions, |m.questions|);
    RecordsKeep(PutQuestions(w0, m.questions, |m.questions|), counts, Sections(m), n);
  }

  /** So it decodes to that suffix in every later buffer, whatever was appended and however the patched
      positions were filled; the hop limit is not reached. */
  lemma {:induction false} TableDecodes(m: Message, n: nat, w: Writer, s: Name, buf: seq<byte>)
    requires n <= |Sections(m)| && PutBody(m, ZERO_COUNTS, n) == Ok(w) && s in w.table && Encodable(s)
    requires |w.out| <= |buf|
    requires forall i: nat :: i < |w.out| && i !in PatchedPositions(m, n) ==> buf[i] == w.out[i]
    ensures w.table[s] <= 0x3fff && NameAt(buf, w.table[s]).Ok? && NameAt(buf, w.table[s]).value.name == Canonical(s)
    ensures Spells(buf, PatchedPositions(m, n), w.table[s], s, LabelCount(s)) && LabelCount(s) < 128
  {
    TableInvariant(m, n, w);
    Survives(w.out, PatchedPositions(m, n), buf, PatchedPositions(m, n), w.table[s], s, LabelCount(s), LabelCount(s));
    WalkReadsSpelling(buf, PatchedPositions(m, n), w.table[s], s, LabelCount(s), 0, 1, 0);
  }
}
