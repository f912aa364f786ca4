/** What an accepted message looks like, on arbitrary octets, and that it can be passed on
    (src/message.rs, src/rdata.rs, src/edns.rs). */
module Accepted {
  import opened Octets
  import opened Names
  import opened NameParsing
  import opened Items
  import opened TypeBitmap
  import opened RData
  import opened Records
  import opened Edns
  import opened HeaderFlags
  import opened Message
  import opened MessageRoundTrip
  import opened Codec

  // ---------------------------------------------------------------------------------------------
  // Items

  /** Up to `end`, `read` gives good items only, and consumes at least what they take when written. */
  ghost predicate GoodReader<T>(read: Reader<T>, write: T -> seq<byte>, good: T -> bool, buf: seq<byte>, end: nat) {
    forall pos: nat :: pos < end && read(buf, pos, end).Ok? ==>
      var (x, next) := read(buf, pos, end).value; good(x) && pos + |write(x)| <= next <= end
  }

  ghost predicate AllGood<T>(good: T -> bool, xs: seq<T>) {
    forall i :: 0 <= i < |xs| ==> good(xs[i])
  }

  lemma OneMoreWritten<T>(write: T -> seq<byte>, xs: seq<T>, x: T)
    ensures |FlatMap(write, xs + [x], |xs| + 1)| == |FlatMap(write, xs, |xs|)| + |write(x)|
  {
    FlatMapFront(write, xs, xs + [x], |xs|);
  }

  lemma {:induction false} FlatMapFront<T>(write: T -> seq<byte>, a: seq<T>, b: seq<T>, n: nat)
    requires n <= |a| && a <= b
    ensures FlatMap(write, a, n) == FlatMap(write, b, n)
  {
    if n > 0 {
      FlatMapFront(write, a, b, n - 1);
    }
  }

  /** So does a list of items, and writing it takes no more octets than reading it did. */
  lemma {:induction false} ItemsAreGood<T>(read: Reader<T>, write: T -> seq<byte>, good: T -> bool, buf: seq<byte>,
                                           pos: nat, end: nat, done: seq<T>)
    requires GoodReader(read, write, good, buf, end) && AllGood(good, done) && pos <= end
    requires ReadItems(read, buf, pos, end, done).Ok?
    ensures var xs := ReadItems(read, buf, pos, end, done).value;
            AllGood(good, xs) && |FlatMap(write, xs, |xs|)| <= |FlatMap(write, done, |done|)| + (end - pos)
    decreases end - pos
  {
    if pos < end {
      var (x, next) := read(buf, pos, end).value;
      OneMoreWritten(write, done, x);
      hide FlatMap;
      ItemsAreGood(read, write, good, buf, next, end, done + [x]);
    }
  }

  // ---------------------------------------------------------------------------------------------
  // EDNS options

  lemma EcsAccepted(data: seq<byte>)
    requires ParseEcs(data).Ok?
    ensures CanonicalEcs(ParseEcs(data).value) && |EcsBytes(ParseEcs(data).value)| == |data|
  {
  }

  /** Faithful, but for padding of any amount. */
  ghost predicate Tolerable(o: EdnsOption) {
    o.Padding? || Faithful(o)
  }

  lemma TagsAccepted(data: seq<byte>)
    requires ReadItems(ReadTag, data, 0, |data|, []).Ok?
    ensures var tags := ReadItems(ReadTag, data, 0, |data|, []).value; |FlatMap(TagBytes, tags, |tags|)| <= |data|
  {
    var good := (t: uint16) => true;
    assert GoodReader(ReadTag, TagBytes, good, data, |data|);
    hide ReadTag, TagBytes;
    ItemsAreGood(ReadTag, TagBytes, good, data, 0, |data|, []);
  }

  lemma PayloadAccepted(code: uint16, data: seq<byte>)
    requires |data| <= 0xffff && ParsePayload(code, data).Ok?
    ensures var o := ParsePayload(code, data).value; Tolerable(o) && |Payload(o)| <= |data|
  {
    hide ParseEcs, CanonicalEcs, EcsBytes, ReadItems, FlatMap;
    if code == 8 {
      EcsAccepted(data);
    } else if code == 14 {
      TagsAccepted(data);
    }
  }

  lemma OptionAccepted(buf: seq<byte>, pos: nat, end: nat)
    requires ReadOption(buf, pos, end).Ok?
    ensures var (o, next) := ReadOption(buf, pos, end).value; Tolerable(o) && pos + |OptionBytes(o)| <= next <= end
  {
    var code, len := U16Of(buf[pos], buf[pos + 1]), U16Of(buf[pos + 2], buf[pos + 3]);
    var data := buf[pos + 4..pos + 4 + len];
    hide ParsePayload, Payload, Faithful, Tolerable;
    PayloadAccepted(code, data);
  }

  lemma OptionsAccepted(data: seq<byte>)
    requires ParseOptions(data).Ok?
    ensures AllGood(Tolerable, ParseOptions(data).value) && |OptionsWire(ParseOptions(data).value)| <= |data|
  {
    hide ReadOption, OptionBytes, Tolerable;
    forall pos: nat | pos < |data| && ReadOption(data, pos, |data|).Ok?
      ensures var (o, next) := ReadOption(data, pos, |data|).value;
              Tolerable(o) && pos + |OptionBytes(o)| <= next <= |data|
    {
      OptionAccepted(data, pos, |data|);
    }
    assert GoodReader(ReadOption, OptionBytes, Tolerable, data, |data|);
    ItemsAreGood(ReadOption, OptionBytes, Tolerable, data, 0, |data|, []);
  }

  // ---------------------------------------------------------------------------------------------
  // Records

  lemma NameAccepted(buf: seq<byte>, pos: nat)
    requires NameAt(buf, pos).Ok?
    ensures Encodable(NameAt(buf, pos).value.name)
  {
    AcceptedName(buf, pos);
    WireLenIs(NameAt(buf, pos).value.name);
  }

  lemma StrsAccepted(buf: seq<byte>, pos: nat, end: nat)
    requires pos <= end <= |buf| && ReadItems(ReadStr, buf, pos, end, []).Ok?
    ensures forall s :: s in ReadItems(ReadStr, buf, pos, end, []).value ==> |s| <= 255
  {
    var good := (s: seq<byte>) => |s| <= 255;
    assert GoodReader(ReadStr, StrBytes, good, buf, end);
    hide ReadStr, StrBytes;
    ItemsAreGood(ReadStr, StrBytes, good, buf, pos, end, []);
  }

  lemma ParamsAccepted(buf: seq<byte>, pos: nat, end: nat)
    requires pos <= end <= |buf| && ReadItems(ReadParam, buf, pos, end, []).Ok?
    ensures forall p :: p in ReadItems(ReadParam, buf, pos, end, []).value ==> |p.value| <= 0xffff
  {
    var good := (p: Param) => |p.value| <= 0xffff;
    assert GoodReader(ReadParam, ParamBytes, good, buf, end);
    hide ReadParam, ParamBytes;
    ItemsAreGood(ReadParam, ParamBytes, good, buf, pos, end, []);
  }

  /** Every field the parser accepts fits its kind. */
  lemma FieldAccepted(buf: seq<byte>, pos: nat, end: nat, k: Kind)
    requires pos <= end <= |buf| && ParseField(buf, pos, end, k).Ok?
    ensures Fits(ParseField(buf, pos, end, k).value.0, k)
  {
    hide NameAt, ReadItems, ParseBitmap, Encodable;
    match k
    case ADomain(_, _) => NameAccepted(buf, pos);
    case ManyStrs => StrsAccepted(buf, pos, end);
    case ManyParams => ParamsAccepted(buf, pos, end);
    case _ =>
  }

  lemma {:induction false} FieldsAccepted(buf: seq<byte>, pos: nat, end: nat, ks: seq<Kind>, done: seq<Field>)
    requires pos <= end <= |buf| && |done| <= |ks| && ParseFields(buf, pos, end, ks, done).Ok?
    requires forall i :: 0 <= i < |done| ==> Fits(done[i], ks[i])
    ensures var fs := ParseFields(buf, pos, end, ks, done).value;
            |fs| == |ks| && forall i :: 0 <= i < |fs| ==> Fits(fs[i], ks[i])
    decreases |ks| - |done|
  {
    hide ParseField, Fits;
    if |done| < |ks| {
      var k := ks[|done|];
      var (f, next) := ParseField(buf, pos, end, k).value;
      FieldAccepted(buf, pos, end, k);
      ParseFieldBounds(buf, pos, end, k);
      FieldsAccepted(buf, next, end, ks, done + [f]);
    }
  }

  /** The one field of an OPT record holds what its RDLENGTH says. */
  lemma RestAccepted(buf: seq<byte>, pos: nat, end: nat)
    requires pos <= end <= |buf|
    ensures ParseFields(buf, pos, end, [Rest], []) == Ok([Raw(buf[pos..end])])
  {
    var f := Raw(buf[pos..end]);
    assert ParseField(buf, pos, end, [Rest][0]) == Ok((f, end));
    assert [] + [f] == [f];
  }

  /** A record with the fields of its type; an OPT record with at most 65535 octets of options. */
  ghost predicate GoodRecord(r: Record) {
    FitsType(r) && (r.rrType == OPT ==> |OptData(r)| <= 0xffff)
  }

  lemma RecordAccepted(buf: seq<byte>, pos: nat)
    requires ParseRecord(Layout, buf, pos).Ok?
    ensures GoodRecord(ParseRecord(Layout, buf, pos).value.0)
  {
    var p := NameAt(buf, pos).value.end;
    var t, end := U16At(buf, p).value, p + 10 + U16At(buf, p + 8).value;
    NameAccepted(buf, pos);
    assert Layout(OPT) == [Rest];
    hide NameAt, Layout, ParseFields, Fits, Encodable;
    FieldsAccepted(buf, p + 10, end, Layout(t), []);
    if t == OPT {
      RestAccepted(buf, p + 10, end);
    }
  }

  lemma {:induction false} ManyAccepted<T>(parse: Parser<T>, good: T -> bool, buf: seq<byte>, pos: nat, n: nat)
    requires ParseMany(parse, buf, pos, n).Ok?
    requires forall p: nat :: ItemAt(parse, buf, p).Ok? ==> good(ItemAt(parse, buf, p).value.0)
    ensures |ParseMany(parse, buf, pos, n).value.0| == n && AllGood(good, ParseMany(parse, buf, pos, n).value.0)
  {
    if n > 0 {
      ManyAccepted(parse, good, buf, pos, n - 1);
    }
  }

  ghost predicate GoodEdns(e: Edns) {
    AllGood(Tolerable, e.options) && |OptionsWire(e.options)| <= 0xffff
  }

  /** The additional section so far: good records, no OPT among them, a good EDNS field if there is one. */
  ghost predicate GoodExtra(x: Extra, n: nat) {
    && |x.records| + (if x.edns.Some? then 1 else 0) == n
    && (forall i :: 0 <= i < |x.records| ==> GoodRecord(x.records[i]) && x.records[i].rrType != OPT)
    && (x.edns.Some? ==> GoodEdns(x.edns.value))
  }

  lemma ExtraAccepted(x: Extra, n: nat, r: Record, next: nat)
    requires GoodExtra(x, n) && GoodRecord(r) && AddExtra(x, r, next).Ok?
    ensures GoodExtra(AddExtra(x, r, next).value, n + 1)
  {
    hide FitsType, ParseOptions, OptData, Tolerable, OptionsWire;
    if r.rrType == OPT {
      OptionsAccepted(OptData(r));
    }
  }

  lemma {:induction false} ExtrasAccepted(parse: Parser<Record>, buf: seq<byte>, pos: nat, n: nat)
    requires ParseExtras(parse, buf, pos, n).Ok?
    requires forall p: nat :: ItemAt(parse, buf, p).Ok? ==> GoodRecord(ItemAt(parse, buf, p).value.0)
    ensures GoodExtra(ParseExtras(parse, buf, pos, n).value, n)
  {
    hide AddExtra, GoodRecord, GoodEdns;
    if n > 0 {
      ExtrasAccepted(parse, buf, pos, n - 1);
      var x := ParseExtras(parse, buf, pos, n - 1).value;
      var (r, next) := ItemAt(parse, buf, x.pos).value;
      hide GoodExtra;
      ExtraAccepted(x, n - 1, r, next);
    }
  }

  // ---------------------------------------------------------------------------------------------
  // Messages

  lemma QuestionAccepted(buf: seq<byte>, pos: nat)
    requires ParseQuestion(buf, pos).Ok?
    ensures Encodable(ParseQuestion(buf, pos).value.0.qname)
  {
    hide NameAt, Encodable;
    NameAccepted(buf, pos);
  }

  lemma QuestionsAccepted(ask: Parser<Question>, buf: seq<byte>, pos: nat, n: nat)
    requires ask == ParseQuestion && ParseMany(ask, buf, pos, n).Ok?
    ensures var qs := ParseMany(ask, buf, pos, n).value.0;
            |qs| == n && forall i :: 0 <= i < |qs| ==> Encodable(qs[i].qname)
  {
    var good := (q: Question) => Encodable(q.qname);
    hide ParseQuestion, Encodable, ParseMany;
    forall p: nat | ItemAt(ask, buf, p).Ok? ensures good(ItemAt(ask, buf, p).value.0) {
      QuestionAccepted(buf, p);
    }
    ManyAccepted(ask, good, buf, pos, n);
  }

  lemma ParsedAreGood(parse: Parser<Record>, buf: seq<byte>)
    requires parse == RecordParser(Layout)
    ensures forall p: nat :: ItemAt(parse, buf, p).Ok? ==> GoodRecord(ItemAt(parse, buf, p).value.0)
  {
    hide GoodRecord, ParseRecord, Layout;
    forall p: nat | ItemAt(parse, buf, p).Ok? ensures GoodRecord(ItemAt(parse, buf, p).value.0) {
      RecordAccepted(buf, p);
    }
  }

  /** Good records in sections of the given sizes, questions with names of legal size, a good EDNS field. */
  ghost predicate GoodSections(m: Message, qd: nat, an: nat, ns: nat, ar: nat) {
    && |m.questions| == qd && |m.answers| == an && |m.authorities| == ns
    && (forall i :: 0 <= i < |m.questions| ==> Encodable(m.questions[i].qname))
    && AllGood(GoodRecord, m.answers) && AllGood(GoodRecord, m.authorities)
    && |m.additionals| + (if m.edns.Some? then 1 else 0) == ar
    && (forall i :: 0 <= i < |m.additionals| ==> GoodRecord(m.additionals[i]) && m.additionals[i].rrType != OPT)
    && (m.edns.Some? ==> GoodEdns(m.edns.value))
  }

  lemma SectionsAccepted(ask: Parser<Question>, parse: Parser<Record>, buf: seq<byte>, id: uint16,
                         flags: Flags, qd: nat, an: nat, ns: nat, ar: nat)
    requires ask == ParseQuestion && parse == RecordParser(Layout)
    requires ParseSections(ask, parse, buf, id, flags, qd, an, ns, ar).Ok?
    ensures var m := ParseSections(ask, parse, buf, id, flags, qd, an, ns, ar).value;
            m.flags == flags && GoodSections(m, qd, an, ns, ar)
  {
    hide ParseMany, ParseExtras, GoodRecord, GoodEdns, Encodable;
    var p1 := ParseMany(ask, buf, 12, qd).value.1;
    var p2 := ParseMany(parse, buf, p1, an).value.1;
    var p3 := ParseMany(parse, buf, p2, ns).value.1;
    QuestionsAccepted(ask, buf, 12, qd);
    ParsedAreGood(parse, buf);
    ManyAccepted(parse, GoodRecord, buf, p1, an);
    ManyAccepted(parse, GoodRecord, buf, p2, ns);
    ExtrasAccepted(parse, buf, p3, ar);
  }

  /** No padding of a positive amount, which is not written back. */
  ghost predicate Unpadded(m: Message) {
    m.edns.Some? ==> forall i :: 0 <= i < |m.edns.value.options| && m.edns.value.options[i].Padding? ==>
      m.edns.value.options[i].amount == 0
  }

  lemma GoodEdnsIsFaithful(m: Message)
    requires m.edns.Some? ==> GoodEdns(m.edns.value)
    ensures (m.edns.Some? ==> FaithfulEdns(m.edns.value)) <==> Unpadded(m)
  {
    hide OptionsWire, Code, KnownCode, CanonicalEcs;
  }

  lemma GoodSectionsAreWellFormed(m: Message, qd: nat, an: nat, ns: nat, ar: nat)
    requires GoodSections(m, qd, an, ns, ar) && m.flags.opcode < 16 && m.flags.rcode < 16
    requires qd <= MAX_QUESTIONS
    requires an <= MAX_SECTION_RECORDS && ns <= MAX_SECTION_RECORDS && ar <= MAX_SECTION_RECORDS
    ensures WellFormed(m) <==> Unpadded(m)
  {
    GoodEdnsIsFaithful(m);
    hide FaithfulEdns, GoodEdns, Unpadded, FitsType, Encodable;
    forall i | 0 <= i < |Sections(m)| ensures FitsType(Sections(m)[i]) {
      var a, b := |m.answers|, |m.answers| + |m.authorities|;
      assert Sections(m)[i] == if i < a then m.answers[i] else if i < b then m.authorities[i - a]
                               else m.additionals[i - b];
    }
  }

  /** Whatever the octets, an accepted message is well-formed, if and only if it has no padding to lose. */
  lemma AcceptedIsWellFormed(buf: seq<byte>, m: Message)
    requires ParseMessage(Layout, buf) == Ok(m)
    ensures WellFormed(m) <==> Unpadded(m)
  {
    var qd, an, ns, ar := U16At(buf, 4).value, U16At(buf, 6).value, U16At(buf, 8).value, U16At(buf, 10).value;
    var flags := ToFlags(U16At(buf, 2).value);
    FlagsFit(U16At(buf, 2).value);
    hide ParseSections, GoodSections, WellFormed, Unpadded, ToFlags, U16At;
    SectionsAccepted(ParseQuestion, RecordParser(Layout), buf, U16At(buf, 0).value, flags, qd, an, ns, ar);
    GoodSectionsAreWellFormed(m, qd, an, ns, ar);
  }

  lemma FlagsFit(v: uint16)
    ensures ToFlags(v).opcode < 16 && ToFlags(v).rcode < 16
  {
    hide Shr;
  }

  /** So a message that was accepted can be passed on: its serialized form parses back to it, with type
      bitmaps ascending, unless an RDATA is over 65535 octets with its names in full. */
  lemma AcceptedComesBack(buf: seq<byte>, m: Message)
    requires ParseMessage(Layout, buf) == Ok(m) && Unpadded(m)
    ensures RDataFits(m) ==> ToBytes(m).Ok?
    ensures ToBytes(m).Ok? ==> ParseMessage(Layout, ToBytes(m).value) == Ok(CanonicalMessage(m))
  {
    hide *;
    AcceptedIsWellFormed(buf, m);
    RoundTrip(m);
  }
}
