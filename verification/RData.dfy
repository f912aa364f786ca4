/** RDATA as the list of its fields in wire order (src/rdata.rs). `Layout` gives the fields of every type
    the program parses structurally; the encoder goes by the fields alone, as the program goes by the
    variant of the value and not by the record type. */
module RData {
  import opened Octets
  import opened Names
  import opened Compressor
  import opened TypeBitmap
  import opened Items

  datatype Param = Param(key: uint16, value: seq<byte>)

  datatype Field =
    | U8(v8: byte)
    | U16(v16: uint16)
    | U32(v32: uint32)
    | Raw(octets: seq<byte>)
    | Domain(name: Name, compress: bool)
    | Str(text: seq<byte>)
    | Strs(texts: seq<seq<byte>>)
    | Types(types: seq<Type>)
    | Params(params: seq<Param>)

  datatype Kind =
    | AnU8 | AnU16 | AnU32
    | Fixed(size: nat)
    | ADomain(compress: bool, exact: bool)
    | AStr | ManyStrs | Bitmap | ManyParams | Rest

  /** The fields of each record type; types not listed are kept raw. */
  function Layout(t: uint16): seq<Kind> {
    match t
    case 1 => [Fixed(4)]
    case 28 => [Fixed(16)]
    case 2 => [ADomain(true, true)]
    case 5 => [ADomain(true, true)]
    case 12 => [ADomain(true, true)]
    case 39 => [ADomain(true, true)]
    case 15 => [AnU16, ADomain(true, true)]
    case 6 => [ADomain(true, false), ADomain(true, false), AnU32, AnU32, AnU32, AnU32, AnU32]
    case 16 => [ManyStrs]
    case 33 => [AnU16, AnU16, AnU16, ADomain(false, true)]
    case 35 => [AnU16, AnU16, AStr, AStr, AStr, ADomain(false, true)]
    case 43 => [AnU16, AnU8, AnU8, Rest]
    case 59 => [AnU16, AnU8, AnU8, Rest]
    case 48 => [AnU16, AnU8, AnU8, Rest]
    case 60 => [AnU16, AnU8, AnU8, Rest]
    case 46 => [AnU16, AnU8, AnU8, AnU32, AnU32, AnU32, AnU16, ADomain(false, false), Rest]
    case 24 => [AnU16, AnU8, AnU8, AnU32, AnU32, AnU32, AnU16, ADomain(false, false), Rest]
    case 47 => [ADomain(false, false), Bitmap]
    case 50 => [AnU8, AnU8, AnU16, AStr, AStr, Bitmap]
    case 51 => [AnU8, AnU8, AnU16, AStr]
    case 257 => [AnU8, AStr, Rest]
    case 52 => [AnU8, AnU8, AnU8, Rest]
    case 53 => [AnU8, AnU8, AnU8, Rest]
    case 64 => [AnU16, ADomain(false, false), ManyParams]
    case 65 => [AnU16, ADomain(false, false), ManyParams]
    case _ => [Rest]
  }

  // ---------------------------------------------------------------------------------------------
  // Writing

  /** At most `limit` leading octets. */
  function Capped(s: seq<byte>, limit: nat): (r: seq<byte>)
    ensures |r| <= limit
  {
    if |s| <= limit then s else s[..limit]
  }

  function StrBytes(s: seq<byte>): seq<byte> {
    [|Capped(s, 255)| as byte] + Capped(s, 255)
  }

  function ParamBytes(p: Param): seq<byte> {
    U16Bytes(p.key) + U16Bytes(|Capped(p.value, 0xffff)|) + Capped(p.value, 0xffff)
  }

  function FieldBytes(t: Table, f: Field): seq<byte> {
    match f
    case U8(v) => [v]
    case U16(v) => U16Bytes(v)
    case U32(v) => U32Bytes(v)
    case Raw(s) => s
    case Domain(n, compress) => if compress then NameBytes(t, n) else Wire(n)
    case Str(s) => StrBytes(s)
    case Strs(ss) => FlatMap(StrBytes, ss, |ss|)
    case Types(ts) => BitmapBytes(ts)
    case Params(ps) => FlatMap(ParamBytes, ps, |ps|)
  }

  function FieldTable(t: Table, base: nat, f: Field): Table {
    if f.Domain? && f.compress then NameTable(t, base, f.name) else t
  }

  /** The writer's state: the octets so far and the compression table. */
  datatype Writer = Writer(out: seq<byte>, table: Table)

  function PutField(w: Writer, f: Field): Writer {
    Writer(w.out + FieldBytes(w.table, f), FieldTable(w.table, |w.out|, f))
  }

  /** The first `n` fields. */
  function PutFields(w: Writer, fs: seq<Field>, n: nat): Writer
    requires n <= |fs|
  {
    if n == 0 then w else PutField(PutFields(w, fs, n - 1), fs[n - 1])
  }

  // ---------------------------------------------------------------------------------------------
  // Parsing

  function ReadStr(buf: seq<byte>, pos: nat, end: nat): Result<(seq<byte>, nat)> {
    if pos >= end || pos >= |buf| then Err(Malformed)
    else
      var next := pos + 1 + buf[pos] as int;
      if next > end || next > |buf| then Err(Malformed) else Ok((buf[pos + 1..next], next))
  }

  function ReadParam(buf: seq<byte>, pos: nat, end: nat): Result<(Param, nat)> {
    if pos + 4 > end || pos + 4 > |buf| then Err(Malformed)
    else
      var next := pos + 4 + U16Of(buf[pos + 2], buf[pos + 3]);
      if next > end || next > |buf| then Err(Malformed)
      else Ok((Param(U16Of(buf[pos], buf[pos + 1]), buf[pos + 4..next]), next))
  }

  /** One field at `pos`, bounded by `end`, and where it stops. */
  function ParseField(buf: seq<byte>, pos: nat, end: nat, k: Kind): Result<(Field, nat)>
    requires pos <= end <= |buf|
  {
    match k
    case AnU8 => if pos + 1 > end then Err(Malformed) else Ok((U8(buf[pos]), pos + 1))
    case AnU16 => if pos + 2 > end then Err(Malformed) else Ok((U16(U16At(buf, pos).value), pos + 2))
    case AnU32 => if pos + 4 > end then Err(Malformed) else Ok((U32(U32At(buf, pos).value), pos + 4))
    case Fixed(n) => if pos + n > end then Err(Malformed) else Ok((Raw(buf[pos..pos + n]), pos + n))
    case ADomain(compress, exact) =>
      (match NameAt(buf, pos)
       case Err(e) => Err(e)
       case Ok(p) =>
         if p.end > end || (exact && p.end != end) then Err(Malformed)
         else Ok((Domain(p.name, compress), p.end)))
    case AStr =>
      (match ReadStr(buf, pos, end)
       case Err(e) => Err(e)
       case Ok((s, next)) => Ok((Str(s), next)))
    case ManyStrs =>
      (match ReadItems(ReadStr, buf, pos, end, [])
       case Err(e) => Err(e)
       case Ok(ss) => Ok((Strs(ss), end)))
    case Bitmap =>
      (match ParseBitmap(buf[..end], pos, [])
       case Err(e) => Err(e)
       case Ok(ts) => Ok((Types(ts), end)))
    case ManyParams =>
      (match ReadItems(ReadParam, buf, pos, end, [])
       case Err(e) => Err(e)
       case Ok(ps) => Ok((Params(ps), end)))
    case Rest => Ok((Raw(buf[pos..end]), end))
  }

  lemma ParseFieldBounds(buf: seq<byte>, pos: nat, end: nat, k: Kind)
    requires pos <= end <= |buf| && ParseField(buf, pos, end, k).Ok?
    ensures pos <= ParseField(buf, pos, end, k).value.1 <= end
  {
    if k.ADomain? {
      WalkBounds(buf, pos, 0, 1, 0);
    }
  }

  /** `RData::parse`: the fields from number `|done|` on. */
  function ParseFields(buf: seq<byte>, pos: nat, end: nat, ks: seq<Kind>, done: seq<Field>): Result<seq<Field>>
    requires pos <= end <= |buf| && |done| <= |ks|
    decreases |ks| - |done|
  {
    if |done| == |ks| then Ok(done)
    else
      match ParseField(buf, pos, end, ks[|done|])
      case Err(e) => Err(e)
      case Ok((f, next)) =>
        ParseFieldBounds(buf, pos, end, ks[|done|]);
        ParseFields(buf, next, end, ks, done + [f])
  }

  // ---------------------------------------------------------------------------------------------
  // What a field must satisfy to be written faithfully, and what is read back

  ghost predicate Encodable(n: Name) {
    WireLen(n) <= 255 && LabelCount(n) <= 126
  }

  ghost predicate Fits(f: Field, k: Kind) {
    match k
    case AnU8 => f.U8?
    case AnU16 => f.U16?
    case AnU32 => f.U32?
    case Fixed(n) => f.Raw? && |f.octets| == n
    case ADomain(compress, _) => f.Domain? && f.compress == compress && Encodable(f.name)
    case AStr => f.Str? && |f.text| <= 255
    case ManyStrs => f.Strs? && forall i :: 0 <= i < |f.texts| ==> |f.texts[i]| <= 255
    case Bitmap => f.Types?
    case ManyParams => f.Params? && forall i :: 0 <= i < |f.params| ==> |f.params[i].value| <= 0xffff
    case Rest => f.Raw?
  }

  /** A kind that reads to the end of the data. */
  predicate Greedy(k: Kind) {
    k.ManyStrs? || k.Bitmap? || k.ManyParams? || k.Rest? || (k.ADomain? && k.exact)
  }

  /** Names come back folded to lower case and type bitmaps ascending; the rest is unchanged. */
  function CanonicalField(f: Field): Field {
    match f
    case Domain(n, compress) => Domain(Canonical(n), compress)
    case Types(ts) => Types(SortDedup(ts))
    case _ => f
  }

  // ---------------------------------------------------------------------------------------------
  // Reading back a field

  lemma StrReadsBack(s: seq<byte>)
    requires |s| <= 255
    ensures ReadsBack(ReadStr, StrBytes, s, s)
  {
    forall buf, at: nat, end: nat | HoldsAt(buf, at, StrBytes(s)) && at + |StrBytes(s)| <= end <= |buf|
      ensures ReadStr(buf, at, end) == Ok((s, at + |StrBytes(s)|))
    {
      HoldsParts(buf, at, [|s| as byte], s);
      HoldsOne(buf, at, |s| as byte);
    }
  }

  lemma ParamReadsBack(p: Param)
    requires |p.value| <= 0xffff
    ensures ReadsBack(ReadParam, ParamBytes, p, p)
  {
    forall buf, at: nat, end: nat | HoldsAt(buf, at, ParamBytes(p)) && at + |ParamBytes(p)| <= end <= |buf|
      ensures ReadParam(buf, at, end) == Ok((p, at + |ParamBytes(p)|))
    {
      HoldsParts(buf, at, U16Bytes(p.key) + U16Bytes(|p.value|), p.value);
      HoldsParts(buf, at, U16Bytes(p.key), U16Bytes(|p.value|));
      ReadsU16(buf, at, p.key);
      ReadsU16(buf, at + 2, |p.value|);
    }
  }

  lemma StrsRead(ss: seq<seq<byte>>, buf: seq<byte>, at: nat, end: nat)
    requires forall i :: 0 <= i < |ss| ==> |ss[i]| <= 255
    requires HoldsAt(buf, at, FlatMap(StrBytes, ss, |ss|)) && at + |FlatMap(StrBytes, ss, |ss|)| == end
    ensures ReadItems(ReadStr, buf, at, end, []) == Ok(ss)
  {
    forall i | 0 <= i < |ss| ensures ReadsBack(ReadStr, StrBytes, ss[i], ss[i]) {
      StrReadsBack(ss[i]);
    }
    ReadAll(ReadStr, StrBytes, ss, ss, FlatMap(StrBytes, ss, |ss|), buf, at, end);
  }

  lemma ParamsRead(ps: seq<Param>, buf: seq<byte>, at: nat, end: nat)
    requires forall i :: 0 <= i < |ps| ==> |ps[i].value| <= 0xffff
    requires HoldsAt(buf, at, FlatMap(ParamBytes, ps, |ps|)) && at + |FlatMap(ParamBytes, ps, |ps|)| == end
    ensures ReadItems(ReadParam, buf, at, end, []) == Ok(ps)
  {
    forall i | 0 <= i < |ps| ensures ReadsBack(ReadParam, ParamBytes, ps[i], ps[i]) {
      ParamReadsBack(ps[i]);
    }
    ReadAll(ReadParam, ParamBytes, ps, ps, FlatMap(ParamBytes, ps, |ps|), buf, at, end);
  }

  lemma BitmapReads(ts: seq<Type>, buf: seq<byte>, at: nat, end: nat)
    requires HoldsAt(buf, at, BitmapBytes(ts)) && at + |BitmapBytes(ts)| == end
    ensures ParseBitmap(buf[..end], at, []) == Ok(SortDedup(ts))
  {
    BitmapRoundTrip(ts);
    ParseShift(BitmapBytes(ts), buf[..end], 0, at, []);
  }

  /** Parsing a bitmap depends on its own octets alone, not on where they stand. */
  lemma {:induction false} ParseShift(a: seq<byte>, b: seq<byte>, p: nat, d: nat, done: seq<Type>)
    requires p <= |a| && |b| == |a| + d && (forall i :: 0 <= i < |a| ==> b[d + i] == a[i])
    ensures ParseBitmap(b, d + p, done) == ParseBitmap(a, p, done)
    decreases |a| - p
  {
    if p + 2 <= |a| {
      assert b[d + p] == a[p] && b[d + (p + 1)] == a[p + 1];
      var len := a[p + 1] as int;
      if 0 < len <= 32 && p + 2 + len <= |a| {
        PushShift(a[p], a, b, p + 2, d, len, done);
        ParseShift(a, b, p + 2 + len, d, PushWindow(a[p], a, p + 2, len, done));
      }
    }
  }

  lemma {:induction false} PushShift(window: byte, a: seq<byte>, b: seq<byte>, base: nat, d: nat, n: nat,
                                     done: seq<Type>)
    requires base + n <= |a| && n <= 32 && |b| == |a| + d && (forall i :: 0 <= i < |a| ==> b[d + i] == a[i])
    ensures PushWindow(window, b, d + base, n, done) == PushWindow(window, a, base, n, done)
  {
    if n > 0 {
      assert b[d + (base + n - 1)] == a[base + n - 1];
      PushShift(window, a, b, base, d, n - 1, done);
    }
  }

  lemma {:induction false} DomainReads(w: Writer, patched: set<nat>, n: Name, compress: bool, buf: seq<byte>)
    requires TableOk(w.out, patched, w.table) && (forall i :: i in patched ==> i < |w.out|)
    requires Encodable(n) && PutField(w, Domain(n, compress)).out <= buf
    ensures NameAt(buf, |w.out|) == Ok(Parsed(Canonical(n), |PutField(w, Domain(n, compress)).out|))
  {
    hide NameAt, Canonical, Walk, EndOf, Wire;
    if compress {
      WrittenNameReads(w.out, patched, w.table, n, buf);
    } else {
      PrefixHolds(w.out, Wire(n), buf);
      PlainReads(buf, |w.out|, n);
    }
  }

  /** What is at the end of the writer's output reads back as the field written there. */
  lemma FieldReads(w: Writer, patched: set<nat>, f: Field, k: Kind, buf: seq<byte>, end: nat)
    requires TableOk(w.out, patched, w.table) && (forall i :: i in patched ==> i < |w.out|)
    requires Fits(f, k) && PutField(w, f).out <= buf
    requires |PutField(w, f).out| <= end <= |buf| && (Greedy(k) ==> end == |PutField(w, f).out|)
    ensures ParseField(buf, |w.out|, end, k) == Ok((CanonicalField(f), |PutField(w, f).out|))
  {
    var at, bytes := |w.out|, FieldBytes(w.table, f);
    PrefixHolds(w.out, bytes, buf);
    match f
    case U8(v) => HoldsOne(buf, at, v);
    case U16(v) => ReadsU16(buf, at, v);
    case U32(v) => ReadsU32(buf, at, v);
    case Raw(s) =>
    case Domain(n, compress) => DomainReads(w, patched, n, compress, buf);
    case Str(s) => StrReadsBack(s);
    case Strs(ss) => StrsRead(ss, buf, at, end);
    case Types(ts) => BitmapReads(ts, buf, at, end);
    case Params(ps) => ParamsRead(ps, buf, at, end);
  }

  lemma FieldKeeps(w: Writer, patched: set<nat>, f: Field)
    requires TableOk(w.out, patched, w.table) && (forall i :: i in patched ==> i < |w.out|)
    ensures TableOk(PutField(w, f).out, patched, PutField(w, f).table)
  {
    if f.Domain? && f.compress {
      WriteNameKeeps(w.out, patched, w.table, f.name);
    } else {
      TableSurvives(w.out, patched, PutField(w, f).out, patched, w.table);
    }
  }
}
