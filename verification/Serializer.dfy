/** Serializing as the program does it: appending to a buffer, compressing names on the way, and
    patching lengths and counts in afterwards (src/rdata.rs, src/message.rs, src/edns.rs). */
module Serializer {
  import opened Octets
  import opened Names
  import opened Compressor
  import opened TypeBitmap
  import opened RData
  import opened Records
  import opened Edns
  import opened Message

  /** What a buffer and a compressor hold, as a value. */
  ghost function State(out: Buffer, comp: NameCompressor): Writer
    reads out, comp
  {
    Writer(out.data, comp.offsets)
  }

  /** The octets of a list of parts, one after another. */
  method Join<A>(write: A -> seq<byte>, parts: seq<A>) returns (bytes: seq<byte>)
    ensures bytes == FlatMap(write, parts, |parts|)
  {
    bytes := [];
    for i := 0 to |parts|
      invariant bytes == FlatMap(write, parts, i)
    {
      bytes := bytes + write(parts[i]);
    }
  }

  method WriteField(f: Field, out: Buffer, comp: NameCompressor)
    modifies out, comp
    ensures State(out, comp) == PutField(old(State(out, comp)), f)
  {
    match f {
      case Domain(n, compress) =>
        if compress {
          comp.Write(n, out);
        } else {
          out.Extend(FieldBytes(comp.offsets, f));
        }
      case Strs(ss) =>
        var bytes := Join(StrBytes, ss);
        out.Extend(bytes);
      case Params(ps) =>
        var bytes := Join(ParamBytes, ps);
        out.Extend(bytes);
      case Types(ts) =>
        WriteBitmap(out, ts);
      case _ =>
        out.Extend(FieldBytes(comp.offsets, f));
    }
  }

  /** `RData::to_wire`. */
  method WriteFields(fs: seq<Field>, out: Buffer, comp: NameCompressor)
    modifies out, comp
    ensures State(out, comp) == PutFields(old(State(out, comp)), fs, |fs|)
  {
    for i := 0 to |fs|
      invariant State(out, comp) == PutFields(old(State(out, comp)), fs, i)
    {
      WriteField(fs[i], out, comp);
    }
  }

  /** RDATA behind a placeholder for its length, which is patched in when the RDATA is there. */
  method WriteSized(fs: seq<Field>, out: Buffer, comp: NameCompressor) returns (r: Result<()>)
    modifies out, comp
    ensures match PutSized(old(State(out, comp)), fs)
            case Err(e) => r == Err(e)
            case Ok(w) => r == Ok(()) && State(out, comp) == w
  {
    hide PutFields, FieldBytes;
    ghost var w := State(out, comp);
    var lengthAt := |out.data|;
    out.Extend([0, 0]);
    ghost var v := State(out, comp);
    WriteFields(fs, out, comp);
    PutFieldsGrows(v, fs, |fs|);
    var rdlen := |out.data| - lengthAt - 2;
    if rdlen > 0xffff {
      return Err(Malformed);
    }
    var ok := out.Patch(lengthAt, U16Bytes(rdlen));
    assert ok;
    return Ok(());
  }

  /** `Record::to_wire`. After an error the octets written so far are the caller's to discard. */
  method WriteRecord(r: Record, out: Buffer, comp: NameCompressor) returns (ok: Result<()>)
    modifies out, comp
    ensures match PutRecord(old(State(out, comp)), r)
            case Err(e) => ok == Err(e)
            case Ok(w) => ok == Ok(()) && State(out, comp) == w
  {
    comp.Write(r.name, out);
    out.Extend(FixedBytes(r));
    ok := WriteSized(r.rdata, out, comp);
  }

  method WriteQuestions(qs: seq<Question>, out: Buffer, comp: NameCompressor)
    modifies out, comp
    ensures State(out, comp) == PutQuestions(old(State(out, comp)), qs, |qs|)
  {
    for i := 0 to |qs|
      invariant State(out, comp) == PutQuestions(old(State(out, comp)), qs, i)
    {
      comp.Write(qs[i].qname, out);
      out.Extend(U16Bytes(qs[i].qtype) + U16Bytes(qs[i].qclass));
    }
  }

  method WriteRecords(rs: seq<Record>, out: Buffer, comp: NameCompressor) returns (ok: Result<()>)
    modifies out, comp
    ensures match PutRecords(old(State(out, comp)), rs, |rs|)
            case Err(e) => ok == Err(e)
            case Ok(w) => ok == Ok(()) && State(out, comp) == w
  {
    ghost var w := State(out, comp);
    for i := 0 to |rs|
      invariant PutRecords(w, rs, i) == Ok(State(out, comp))
    {
      ok := WriteRecord(rs[i], out, comp);
      if ok.Err? {
        FoldFails(PutRecord, w, rs, i + 1, |rs|);
        return;
      }
    }
    ok := Ok(());
  }

  /** The OPT record; its length field keeps the low 16 bits. */
  method WriteOpt(edns: Option<Edns>, out: Buffer, comp: NameCompressor)
    modifies out, comp
    ensures State(out, comp) == PutOpt(old(State(out, comp)), edns)
  {
    match edns {
      case None =>
      case Some(e) =>
        ghost var before := out.data;
        comp.Write(Root, out);
        out.Extend(U16Bytes(OPT) + U16Bytes(e.udpSize) + U32Bytes(TtlField(e)));
        var data := Join(OptionBytes, e.options);
        out.Extend(U16Bytes(|data| % 0x1_0000));
        out.Extend(data);
        OptJoins(before, U16Bytes(OPT) + U16Bytes(e.udpSize) + U32Bytes(TtlField(e)),
                 U16Bytes(|data| % 0x1_0000), data);
    }
  }

  lemma SectionsJoin(w: Writer, m: Message)
    ensures PutRecords(w, Sections(m), |Sections(m)|)
            == match PutRecords(w, m.answers, |m.answers|)
               case Err(e) => Err(e)
               case Ok(v) =>
                 match PutRecords(v, m.authorities, |m.authorities|)
                 case Err(e) => Err(e)
                 case Ok(u) => PutRecords(u, m.additionals, |m.additionals|)
  {
    hide PutRecord, Fold;
    var ab := m.answers + m.authorities;
    FoldJoin(PutRecord, w, m.answers, m.authorities, |m.authorities|, ab);
    FoldJoin(PutRecord, w, ab, m.additionals, |m.additionals|, Sections(m));
  }

  /** `Message::to_bytes`. */
  method Serialize(m: Message) returns (r: Result<seq<byte>>)
    ensures r == ToBytes(m)
  {
    var out := new Buffer();
    var comp := new NameCompressor();
    out.Extend(StartBytes(m));
    var countsAt := |out.data|;
    out.Extend(ZERO_COUNTS);
    assert State(out, comp) == Writer(StartBytes(m) + ZERO_COUNTS, map[]);
    WriteQuestions(m.questions, out, comp);
    ghost var w := State(out, comp);
    assert w == PutQuestions(Writer(StartBytes(m) + ZERO_COUNTS, map[]), m.questions, |m.questions|);
    SectionsJoin(w, m);
    var ok := WriteRecords(m.answers, out, comp);
    if ok.Err? {
      return Err(ok.error);
    }
    ok := WriteRecords(m.authorities, out, comp);
    if ok.Err? {
      return Err(ok.error);
    }
    ok := WriteRecords(m.additionals, out, comp);
    if ok.Err? {
      return Err(ok.error);
    }
    WriteOpt(m.edns, out, comp);
    var patched := out.Patch(countsAt, CountBytes(m));
    r := if patched then Ok(out.data) else Err(Internal);
  }
}
