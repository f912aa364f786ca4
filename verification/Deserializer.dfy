/** Parsing as the program does it: a position that advances through the message, and vectors that grow
    (src/message.rs, src/rdata.rs, src/edns.rs). */
module Deserializer {
  import opened Octets
  import opened Items
  import opened RData
  import opened Records
  import opened Edns
  import opened HeaderFlags
  import opened Message
  import opened MessageRoundTrip

  /** `while pos < end { push(read(pos)?) }`: TXT strings, SVCB parameters, EDNS options. */
  method ReadAll<T>(read: Reader<T>, buf: seq<byte>, pos: nat, end: nat) returns (r: Result<seq<T>>)
    ensures r == ReadItems(read, buf, pos, end, [])
  {
    var p: nat, done: seq<T> := pos, [];
    while p < end
      invariant ReadItems(read, buf, pos, end, []) == ReadItems(read, buf, p, end, done)
    {
      match read(buf, p, end) {
        case Err(e) =>
          return Err(e);
        case Ok((x, next)) =>
          if next <= p {
            return Err(Internal);
          }
          p, done := next, done + [x];
      }
    }
    r := Ok(done);
  }

  /** `parse_options`. */
  method ReadOptions(data: seq<byte>) returns (r: Result<seq<EdnsOption>>)
    ensures r == ParseOptions(data)
  {
    r := ReadAll(ReadOption, data, 0, |data|);
  }

  /** `RData::parse`: the fields of a layout, one after another. */
  method ReadFields(buf: seq<byte>, pos: nat, end: nat, ks: seq<Kind>) returns (r: Result<seq<Field>>)
    requires pos <= end <= |buf|
    ensures r == ParseFields(buf, pos, end, ks, [])
  {
    var p: nat, done: seq<Field> := pos, [];
    while |done| < |ks|
      invariant p <= end && |done| <= |ks|
      invariant ParseFields(buf, pos, end, ks, []) == ParseFields(buf, p, end, ks, done)
      decreases |ks| - |done|
    {
      var f := ParseField(buf, p, end, ks[|done|]);
      if f.Err? {
        return Err(f.error);
      }
      ParseFieldBounds(buf, p, end, ks[|done|]);
      p, done := f.value.1, done + [f.value.0];
    }
    r := Ok(done);
  }

  /** `for _ in 0..n { push(parse(&mut pos)?) }`: the question and record sections. */
  method ReadMany<T>(parse: Parser<T>, buf: seq<byte>, pos: nat, n: nat) returns (r: Result<(seq<T>, nat)>)
    ensures r == ParseMany(parse, buf, pos, n)
  {
    var p: nat, done: seq<T> := pos, [];
    for i := 0 to n
      invariant ParseMany(parse, buf, pos, i) == Ok((done, p))
    {
      match ItemAt(parse, buf, p) {
        case Err(e) =>
          ManyFails(parse, buf, pos, i + 1, n);
          return Err(e);
        case Ok((x, next)) =>
          p, done := next, done + [x];
      }
    }
    r := Ok((done, p));
  }

  lemma {:induction false} ManyFails<T>(parse: Parser<T>, buf: seq<byte>, pos: nat, k: nat, n: nat)
    requires k <= n && ParseMany(parse, buf, pos, k).Err?
    ensures ParseMany(parse, buf, pos, n) == Err(ParseMany(parse, buf, pos, k).error)
  {
    if k < n {
      ManyFails(parse, buf, pos, k, n - 1);
    }
  }

  /** The additional section: the OPT record goes to the EDNS field, and there is at most one. */
  method ReadExtras(parse: Parser<Record>, buf: seq<byte>, pos: nat, n: nat) returns (r: Result<Extra>)
    ensures r == ParseExtras(parse, buf, pos, n)
  {
    var p: nat, additionals: seq<Record>, edns: Option<Edns> := pos, [], None;
    for i := 0 to n
      invariant ParseExtras(parse, buf, pos, i) == Ok(Extra(additionals, edns, p))
    {
      match ItemAt(parse, buf, p) {
        case Err(e) =>
          ExtrasFail(parse, buf, pos, i + 1, n);
          return Err(e);
        case Ok((rec, next)) =>
          if rec.rrType != OPT {
            additionals := additionals + [rec];
          } else {
            if edns.Some? {
              ExtrasFail(parse, buf, pos, i + 1, n);
              return Err(Malformed);
            }
            var options := ReadOptions(OptData(rec));
            if options.Err? {
              ExtrasFail(parse, buf, pos, i + 1, n);
              return Err(options.error);
            }
            edns := Some(FromTtl(rec.class_, rec.ttl, options.value));
          }
          p := next;
      }
    }
    r := Ok(Extra(additionals, edns, p));
  }

  lemma {:induction false} ExtrasFail(parse: Parser<Record>, buf: seq<byte>, pos: nat, k: nat, n: nat)
    requires k <= n && ParseExtras(parse, buf, pos, k).Err?
    ensures ParseExtras(parse, buf, pos, n) == ParseExtras(parse, buf, pos, k)
  {
    if k < n {
      ExtrasFail(parse, buf, pos, k, n - 1);
    }
  }

  /** The sections after the header. */
  method ReadSections(ask: Parser<Question>, parse: Parser<Record>, buf: seq<byte>, id: uint16, flags: Flags, qd: nat,
                      an: nat, ns: nat, ar: nat) returns (r: Result<Message>)
    ensures r == ParseSections(ask, parse, buf, id, flags, qd, an, ns, ar)
  {
    var questions := ReadMany(ask, buf, 12, qd);
    if questions.Err? {
      return Err(questions.error);
    }
    var answers := ReadMany(parse, buf, questions.value.1, an);
    if answers.Err? {
      return Err(answers.error);
    }
    var authorities := ReadMany(parse, buf, answers.value.1, ns);
    if authorities.Err? {
      return Err(authorities.error);
    }
    var extras := ReadExtras(parse, buf, authorities.value.1, ar);
    if extras.Err? {
      return Err(extras.error);
    }
    r := Ok(Message(id, flags, questions.value.0, answers.value.0, authorities.value.0, extras.value.records,
                    extras.value.edns));
  }

  /** `Message::parse`. */
  method Deserialize(layout: uint16 -> seq<Kind>, buf: seq<byte>) returns (r: Result<Message>)
    ensures r == ParseMessage(layout, buf)
  {
    if |buf| < 12 {
      return Err(Malformed);
    }
    var qd, an, ns, ar := U16At(buf, 4).value, U16At(buf, 6).value, U16At(buf, 8).value, U16At(buf, 10).value;
    if qd > MAX_QUESTIONS || an > MAX_SECTION_RECORDS || ns > MAX_SECTION_RECORDS || ar > MAX_SECTION_RECORDS {
      return Err(Malformed);
    }
    r := ReadSections(ParseQuestion, RecordParser(layout), buf, U16At(buf, 0).value, ToFlags(U16At(buf, 2).value), qd,
                      an, ns, ar);
  }
}
