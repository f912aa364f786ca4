/** Resource records: owner, fixed header, patched RDLENGTH and RDATA (src/rdata.rs). */
module Records {
  import opened Octets
  import opened Names
  import opened Compressor
  import opened RData

  datatype Record = Record(name: Name, rrType: uint16, class_: uint16, ttl: uint32, rdata: seq<Field>)

  const OPT: uint16 := 41

  // ---------------------------------------------------------------------------------------------
  // Writing

  function PutName(w: Writer, n: Name): Writer {
    Writer(w.out + NameBytes(w.table, n), NameTable(w.table, |w.out|, n))
  }

  function PutBytes(w: Writer, bytes: seq<byte>): Writer {
    Writer(w.out + bytes, w.table)
  }

  function FixedBytes(r: Record): (b: seq<byte>)
    ensures |b| == 8
  {
    U16Bytes(r.rrType) + U16Bytes(r.class_) + U32Bytes(r.ttl)
  }

  function Patched(out: seq<byte>, at: nat, bytes: seq<byte>): (p: seq<byte>)
    requires at + |bytes| <= |out|
    ensures |p| == |out|
  {
    out[..at] + bytes + out[at + |bytes|..]
  }

  lemma {:induction false} PutFieldsGrows(w: Writer, fs: seq<Field>, n: nat)
    requires n <= |fs|
    ensures w.out <= PutFields(w, fs, n).out
  {
    hide FieldBytes, FieldTable;
    if n > 0 {
      var v := PutFields(w, fs, n - 1);
      PutFieldsGrows(w, fs, n - 1);
      PrefixGrow(v.out, FieldBytes(v.table, fs[n - 1]));
      PrefixTrans(w.out, v.out, PutFields(w, fs, n).out);
    }
  }

  /** RDATA behind a two-octet placeholder, whose place then receives the length of the RDATA. */
  function PutSized(w: Writer, fs: seq<Field>): Result<Writer> {
    var v := PutFields(PutBytes(w, [0, 0]), fs, |fs|);
    PutFieldsGrows(PutBytes(w, [0, 0]), fs, |fs|);
    var rdlen := |v.out| - |w.out| - 2;
    if rdlen > 0xffff then Err(Malformed) else Ok(Writer(Patched(v.out, |w.out|, U16Bytes(rdlen)), v.table))
  }

  /** `Record::to_wire`. */
  function PutRecord(w: Writer, r: Record): Result<Writer> {
    PutSized(PutBytes(PutName(w, r.name), FixedBytes(r)), r.rdata)
  }

  // ---------------------------------------------------------------------------------------------
  // A patch changes nothing that was written after it: RDATA depends on what stands before it only
  // through its length.

  /** What `n` fields append to `base` octets, and the table they leave. */
  function Appended(t: Table, base: nat, fs: seq<Field>, n: nat): Writer
    requires n <= |fs|
  {
    if n == 0 then Writer([], t)
    else
      var w := Appended(t, base, fs, n - 1);
      Writer(w.out + FieldBytes(w.table, fs[n - 1]), FieldTable(w.table, base + |w.out|, fs[n - 1]))
  }

  lemma {:induction false} PutFieldsAppends(w: Writer, fs: seq<Field>, n: nat)
    requires n <= |fs|
    ensures var a := Appended(w.table, |w.out|, fs, n); PutFields(w, fs, n) == Writer(w.out + a.out, a.table)
  {
    hide FieldBytes, FieldTable;
    if n > 0 {
      PutFieldsAppends(w, fs, n - 1);
      var a := Appended(w.table, |w.out|, fs, n - 1);
      Associative(w.out, a.out, FieldBytes(a.table, fs[n - 1]));
    } else {
      AppendNothing(w.out);
    }
  }

  lemma PatchMiddle(front: seq<byte>, hole: seq<byte>, back: seq<byte>, fill: seq<byte>)
    requires |fill| == |hole|
    ensures Patched(front + hole + back, |front|, fill) == front + fill + back
  {
    var all := front + hole + back;
    assert all[..|front|] == front;
    assert all[|front| + |fill|..] == back;
  }

  /** Patching the length in afterwards is writing it in the first place: the octets, the table, and
      the refusal of RDATA over 65535 octets. */
  lemma PatchIsDirect(w: Writer, fs: seq<Field>) returns (rdata: seq<byte>)
    ensures rdata == Appended(w.table, |w.out| + 2, fs, |fs|).out
    ensures PutSized(w, fs).Ok? <==> |rdata| <= 0xffff
    ensures |rdata| <= 0xffff ==>
              && PutSized(w, fs) == Ok(PutFields(PutBytes(w, U16Bytes(|rdata|)), fs, |fs|))
              && PutSized(w, fs).value.out == w.out + U16Bytes(|rdata|) + rdata
  {
    hide Appended, PutFields, U16Bytes;
    var a := Appended(w.table, |w.out| + 2, fs, |fs|);
    rdata := a.out;
    PutFieldsAppends(PutBytes(w, [0, 0]), fs, |fs|);
    if |rdata| <= 0xffff {
      PutFieldsAppends(PutBytes(w, U16Bytes(|rdata|)), fs, |fs|);
      PatchMiddle(w.out, [0, 0], rdata, U16Bytes(|rdata|));
    }
  }

  // ---------------------------------------------------------------------------------------------
  // Parsing

  /** `Record::parse`, for any assignment of layouts to types: the record at `pos` and the position past
      it, which the RDLENGTH alone decides. */
  function ParseRecord(layout: uint16 -> seq<Kind>, buf: seq<byte>, pos: nat): Result<(Record, nat)> {
    match NameAt(buf, pos)
    case Err(e) => Err(e)
    case Ok(owner) =>
      var p := owner.end;
      if p + 10 > |buf| then Err(Malformed)
      else
        var rrType, class_, ttl := U16At(buf, p).value, U16At(buf, p + 2).value, U32At(buf, p + 4).value;
        var end := p + 10 + U16At(buf, p + 8).value;
        if end > |buf| then Err(Malformed)
        else
          match ParseFields(buf, p + 10, end, layout(rrType), [])
          case Err(e) => Err(e)
          case Ok(fields) => Ok((Record(owner.name, rrType, class_, ttl, fields), end))
  }

  // ---------------------------------------------------------------------------------------------
  // Table invariant

  /** The invariant of a writer: its table holds, and every patched position has been written. */
  ghost predicate Sound(w: Writer, patched: set<nat>) {
    TableOk(w.out, patched, w.table) && forall i :: i in patched ==> i < |w.out|
  }

  lemma NameKeeps(w: Writer, patched: set<nat>, n: Name)
    requires Sound(w, patched)
    ensures Sound(PutName(w, n), patched)
  {
    WriteNameKeeps(w.out, patched, w.table, n);
  }

  /** Appending octets that are no name, some of which may be patched later. */
  lemma BytesKeep(w: Writer, patched: set<nat>, bytes: seq<byte>, holes: set<nat>)
    requires Sound(w, patched) && (forall i :: i in holes ==> |w.out| <= i < |w.out| + |bytes|)
    ensures Sound(PutBytes(w, bytes), patched + holes)
  {
    TableSurvives(w.out, patched, w.out + bytes, patched + holes, w.table);
  }

  lemma PlainBytesKeep(w: Writer, patched: set<nat>, bytes: seq<byte>)
    requires Sound(w, patched)
    ensures Sound(PutBytes(w, bytes), patched)
  {
    BytesKeep(w, patched, bytes, {});
    assert patched + {} == patched;
  }

  lemma OneFieldKeeps(w: Writer, patched: set<nat>, f: Field)
    requires Sound(w, patched)
    ensures Sound(PutField(w, f), patched) && |w.out| <= |PutField(w, f).out|
  {
    hide TableOk, FieldBytes, FieldTable;
    FieldKeeps(w, patched, f);
  }

  lemma {:induction false} FieldsKeep(w: Writer, patched: set<nat>, fs: seq<Field>, n: nat)
    requires n <= |fs| && Sound(w, patched)
    ensures Sound(PutFields(w, fs, n), patched) && |w.out| <= |PutFields(w, fs, n).out|
  {
    hide Sound, PutField;
    if n > 0 {
      FieldsKeep(w, patched, fs, n - 1);
      OneFieldKeeps(PutFields(w, fs, n - 1), patched, fs[n - 1]);
    }
  }

  /** The positions of the RDLENGTH field of a record written after `w`. */
  function LengthHole(w: Writer, r: Record): set<nat> {
    {|PutName(w, r.name).out| + 8, |PutName(w, r.name).out| + 9}
  }

  lemma SizedKeeps(w: Writer, patched: set<nat>, fs: seq<Field>)
    requires Sound(w, patched) && PutSized(w, fs).Ok?
    ensures Sound(PutSized(w, fs).value, patched + {|w.out|, |w.out| + 1})
    ensures w.out <= PutSized(w, fs).value.out
  {
    var rdata := PatchIsDirect(w, fs);
    var v := PutBytes(w, U16Bytes(|rdata|));
    BytesKeep(w, patched, U16Bytes(|rdata|), {|w.out|, |w.out| + 1});
    FieldsKeep(v, patched + {|w.out|, |w.out| + 1}, fs, |fs|);
    PrefixGrows(w.out, U16Bytes(|rdata|), rdata);
  }

  /** Writing a record keeps every recorded suffix readable, and none of them reads the patched length. */
  lemma RecordKeeps(w: Writer, patched: set<nat>, r: Record)
    requires Sound(w, patched) && PutRecord(w, r).Ok?
    ensures Sound(PutRecord(w, r).value, patched + LengthHole(w, r)) && w.out <= PutRecord(w, r).value.out
  {
    var u := PutName(w, r.name);
    var v := PutBytes(u, FixedBytes(r));
    NameKeeps(w, patched, r.name);
    PlainBytesKeep(u, patched, FixedBytes(r));
    SizedKeeps(v, patched, r.rdata);
    assert LengthHole(w, r) == {|v.out|, |v.out| + 1};
    PrefixGrows(w.out, NameBytes(w.table, r.name), FixedBytes(r));
    PrefixTrans(w.out, v.out, PutRecord(w, r).value.out);
  }

  // ---------------------------------------------------------------------------------------------
  // Round trip

  ghost predicate FieldsFit(fs: seq<Field>, ks: seq<Kind>) {
    && |fs| == |ks|
    && (forall i :: 0 <= i < |fs| ==> Fits(fs[i], ks[i]))
    && (forall i :: 0 <= i < |ks| - 1 ==> !Greedy(ks[i]))
  }

  /** A record whose RDATA has the fields of its type, within the limits of their length octets. */
  ghost predicate WellTyped(layout: uint16 -> seq<Kind>, r: Record) {
    Encodable(r.name) && FieldsFit(r.rdata, layout(r.rrType))
  }

  function CanonicalFields(fs: seq<Field>, n: nat): (c: seq<Field>)
    requires n <= |fs|
    ensures |c| == n
  {
    if n == 0 then [] else CanonicalFields(fs, n - 1) + [CanonicalField(fs[n - 1])]
  }

  function CanonicalRecord(r: Record): Record {
    r.(name := Canonical(r.name), rdata := CanonicalFields(r.rdata, |r.rdata|))
  }

  lemma {:induction false} FieldsPrefix(w: Writer, fs: seq<Field>, k: nat, n: nat)
    requires k <= n <= |fs|
    ensures PutFields(w, fs, k).out <= PutFields(w, fs, n).out
  {
    hide FieldBytes, FieldTable;
    if k < n {
      var v := PutFields(w, fs, n - 1);
      FieldsPrefix(w, fs, k, n - 1);
      PrefixGrow(v.out, FieldBytes(v.table, fs[n - 1]));
      PrefixTrans(PutFields(w, fs, k).out, v.out, PutFields(w, fs, n).out);
    }
  }

  lemma FieldStep(w: Writer, patched: set<nat>, fs: seq<Field>, ks: seq<Kind>, n: nat, buf: seq<byte>, end: nat)
    requires Sound(w, patched) && FieldsFit(fs, ks) && n < |fs|
    requires PutFields(w, fs, |fs|).out <= buf && end == |PutFields(w, fs, |fs|).out|
    ensures |PutFields(w, fs, n).out| <= |PutFields(w, fs, n + 1).out| <= end
    ensures ParseField(buf, |PutFields(w, fs, n).out|, end, ks[n])
            == Ok((CanonicalField(fs[n]), |PutFields(w, fs, n + 1).out|))
  {
    hide TableOk, CanonicalField, ParseField, FieldBytes, FieldTable;
    FieldsKeep(w, patched, fs, n);
    FieldsPrefix(w, fs, n + 1, |fs|);
    PrefixTrans(PutFields(w, fs, n + 1).out, PutFields(w, fs, |fs|).out, buf);
    FieldReads(PutFields(w, fs, n), patched, fs[n], ks[n], buf, end);
  }

  lemma ParseOne(buf: seq<byte>, pos: nat, end: nat, ks: seq<Kind>, done: seq<Field>, f: Field,
                 next: nat)
    requires pos <= next <= end <= |buf| && |done| < |ks|
    requires ParseField(buf, pos, end, ks[|done|]) == Ok((f, next))
    ensures ParseFields(buf, pos, end, ks, done) == ParseFields(buf, next, end, ks, done + [f])
  {
  }

  /** From field `n` on, the parser reads back what the encoder put. */
  lemma {:induction false} FieldsRead(w: Writer, patched: set<nat>, fs: seq<Field>, ks: seq<Kind>, n: nat,
                                      buf: seq<byte>, pos: nat, end: nat, done: seq<Field>)
    requires Sound(w, patched) && FieldsFit(fs, ks) && n <= |fs|
    requires PutFields(w, fs, |fs|).out <= buf && end == |PutFields(w, fs, |fs|).out|
    requires pos == |PutFields(w, fs, n).out| <= end && done == CanonicalFields(fs, n)
    ensures ParseFields(buf, pos, end, ks, done) == Ok(CanonicalFields(fs, |fs|))
    decreases |fs| - n
  {
    hide Sound, PutFields, ParseField, CanonicalField;
    if n < |fs| {
      hide ParseFields;
      var next, done' := |PutFields(w, fs, n + 1).out|, done + [CanonicalField(fs[n])];
      assert pos <= next <= end && ParseField(buf, pos, end, ks[n]) == Ok((CanonicalField(fs[n]), next)) by {
        FieldStep(w, patched, fs, ks, n, buf, end);
      }
      ParseOne(buf, pos, end, ks, done, CanonicalField(fs[n]), next);
      FieldsRead(w, patched, fs, ks, n + 1, buf, next, end, done');
    }
  }

  lemma HeaderReads(buf: seq<byte>, p: nat, r: Record, rdlen: uint16)
    requires HoldsAt(buf, p, FixedBytes(r) + U16Bytes(rdlen))
    ensures U16At(buf, p) == Ok(r.rrType) && U16At(buf, p + 2) == Ok(r.class_)
    ensures U32At(buf, p + 4) == Ok(r.ttl) && U16At(buf, p + 8) == Ok(rdlen)
  {
    HoldsParts(buf, p, FixedBytes(r), U16Bytes(rdlen));
    HoldsParts(buf, p, U16Bytes(r.rrType) + U16Bytes(r.class_), U32Bytes(r.ttl));
    HoldsParts(buf, p, U16Bytes(r.rrType), U16Bytes(r.class_));
    ReadsU16(buf, p, r.rrType);
    ReadsU16(buf, p + 2, r.class_);
    ReadsU32(buf, p + 4, r.ttl);
    ReadsU16(buf, p + 8, rdlen);
  }

  /** After the owner name that ends at `p` stand the header of `r` and `rdlen` octets that parse to `fields`. */
  ghost predicate BodyAt(buf: seq<byte>, p: nat, r: Record, ks: seq<Kind>, rdlen: uint16, fields: seq<Field>) {
    && p + 10 + rdlen <= |buf|
    && HoldsAt(buf, p, FixedBytes(r) + U16Bytes(rdlen))
    && ParseFields(buf, p + 10, p + 10 + rdlen, ks, []) == Ok(fields)
  }

  /** The octets after the owner name, read back on their own. */
  lemma BodyReads(u: Writer, patched: set<nat>, r: Record, ks: seq<Kind>, rdata: seq<byte>, v: Writer, buf: seq<byte>)
    requires Sound(u, patched) && FieldsFit(r.rdata, ks) && |rdata| <= 0xffff
    requires v == PutBytes(PutBytes(u, FixedBytes(r)), U16Bytes(|rdata|))
    requires PutFields(v, r.rdata, |r.rdata|).out == v.out + rdata <= buf
    ensures BodyAt(buf, |u.out|, r, ks, |rdata|, CanonicalFields(r.rdata, |r.rdata|))
  {
    hide ParseFields, FieldsFit, U32Bytes, FieldBytes, FieldTable;
    Associative(u.out, FixedBytes(r), U16Bytes(|rdata|));
    PrefixTrans(v.out, v.out + rdata, buf);
    PrefixHolds(u.out, FixedBytes(r) + U16Bytes(|rdata|), buf);
    PlainBytesKeep(u, patched, FixedBytes(r));
    PlainBytesKeep(PutBytes(u, FixedBytes(r)), patched, U16Bytes(|rdata|));
    FieldsRead(v, patched, r.rdata, ks, 0, buf, |v.out|, |v.out + rdata|, []);
  }

  lemma RecordParts(layout: uint16 -> seq<Kind>, buf: seq<byte>, pos: nat, r: Record, owner: Name, p: nat,
                    rdlen: uint16, fields: seq<Field>)
    requires NameAt(buf, pos) == Ok(Parsed(owner, p)) && BodyAt(buf, p, r, layout(r.rrType), rdlen, fields)
    ensures ParseRecord(layout, buf, pos) == Ok((r.(name := owner, rdata := fields), p + 10 + rdlen))
  {
    hide NameAt, HoldsAt, FixedBytes, U16Bytes;
    HeaderReads(buf, p, r, rdlen);
  }

  lemma {:induction false} NameReads(w: Writer, patched: set<nat>, n: Name, buf: seq<byte>)
    requires Sound(w, patched) && Encodable(n) && PutName(w, n).out <= buf
    ensures NameAt(buf, |w.out|) == Ok(Parsed(Canonical(n), |PutName(w, n).out|))
  {
    WrittenNameReads(w.out, patched, w.table, n, buf);
  }

  lemma DirectReads(u: Writer, patched: set<nat>, r: Record, ks: seq<Kind>, buf: seq<byte>)
    returns (rdlen: uint16)
    requires Sound(u, patched) && FieldsFit(r.rdata, ks)
    requires PutSized(PutBytes(u, FixedBytes(r)), r.rdata).Ok?
    requires PutSized(PutBytes(u, FixedBytes(r)), r.rdata).value.out <= buf
    ensures u.out <= buf && |PutSized(PutBytes(u, FixedBytes(r)), r.rdata).value.out| == |u.out| + 10 + rdlen
    ensures BodyAt(buf, |u.out|, r, ks, rdlen, CanonicalFields(r.rdata, |r.rdata|))
  {
    var x := PutBytes(u, FixedBytes(r));
    var rdata := PatchIsDirect(x, r.rdata);
    rdlen := |rdata|;
    OwnerComesFirst(u, r, rdata, buf);
    BodyReads(u, patched, r, ks, rdata, PutBytes(x, U16Bytes(rdlen)), buf);
  }

  lemma OwnerComesFirst(u: Writer, r: Record, rdata: seq<byte>, buf: seq<byte>)
    requires |rdata| <= 0xffff
    requires PutBytes(PutBytes(u, FixedBytes(r)), U16Bytes(|rdata|)).out + rdata <= buf
    ensures u.out <= buf
  {
    var v := PutBytes(PutBytes(u, FixedBytes(r)), U16Bytes(|rdata|));
    PrefixGrows(u.out, FixedBytes(r), U16Bytes(|rdata|));
    PrefixGrow(v.out, rdata);
    PrefixTrans(u.out, v.out, v.out + rdata);
    PrefixTrans(u.out, v.out + rdata, buf);
  }

  /** A record reads back from the octets written for it, whatever is appended later. */
  lemma RecordReads(layout: uint16 -> seq<Kind>, w: Writer, patched: set<nat>, r: Record,
                    buf: seq<byte>)
    requires Sound(w, patched) && WellTyped(layout, r)
    requires PutRecord(w, r).Ok? && PutRecord(w, r).value.out <= buf
    ensures ParseRecord(layout, buf, |w.out|) == Ok((CanonicalRecord(r), |PutRecord(w, r).value.out|))
  {
    hide NameAt, NameBytes, NameTable, PutSized, PutFields, ParseRecord, CanonicalFields, FieldsFit, Canonical;
    var u := PutName(w, r.name);
    NameKeeps(w, patched, r.name);
    var rdlen := DirectReads(u, patched, r, layout(r.rrType), buf);
    NameReads(w, patched, r.name, buf);
    RecordParts(layout, buf, |w.out|, r, Canonical(r.name), |u.out|, rdlen, CanonicalFields(r.rdata, |r.rdata|));
  }
}
