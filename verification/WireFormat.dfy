/** Where the standards put things: what the parser takes from which octets. Since parsing undoes serializing,
    the printer puts it there (sections 4.1 of RFC 1035 and 6.1 of RFC 6891; src/message.rs, src/rdata.rs). */
module WireFormat {
  import opened Octets
  import opened Powers
  import opened Names
  import opened Items
  import opened TypeBitmap
  import opened RData
  import opened Records
  import opened Edns
  import opened HeaderFlags
  import opened Message
  import opened MessageRoundTrip
  import opened Accepted

  /** The number in two octets, the more significant one first. */
  function Number16(buf: seq<byte>, p: nat): nat
    requires p + 2 <= |buf|
  {
    256 * buf[p] as nat + buf[p + 1] as nat
  }

  /** The number in four octets. */
  function Number32(buf: seq<byte>, p: nat): nat
    requires p + 4 <= |buf|
  {
    0x100_0000 * buf[p] as nat + 0x1_0000 * buf[p + 1] as nat + 256 * buf[p + 2] as nat + buf[p + 3] as nat
  }

  // ---------------------------------------------------------------------------------------------
  // The header

  /** The flags in the third and fourth octet of a header. */
  ghost predicate FlagsStand(hi: byte, lo: byte, f: Flags) {
    && hi as nat == 128 * B(f.qr) + 8 * f.opcode as nat + 4 * B(f.aa) + 2 * B(f.tc) + B(f.rd)
    && lo as nat / 128 == B(f.ra) && lo as nat % 64 == 32 * B(f.ad) + 16 * B(f.cd) + f.rcode as nat
    && f.opcode < 16 && f.rcode < 16
  }

  lemma FlagsFormat(hi: byte, lo: byte)
    ensures FlagsStand(hi, lo, ToFlags(U16Of(hi, lo)))
  {
    var v := U16Of(hi, lo);
    var f, z := Decompose(v);
    FromDigits(v, f, B(z));
    hide ToFlags, Shr;
    var c := 128 * B(f.qr) + 8 * f.opcode as nat + 4 * B(f.aa) + 2 * B(f.tc) + B(f.rd);
    var d := 128 * B(f.ra) + 64 * B(z) + 32 * B(f.ad) + 16 * B(f.cd) + f.rcode as nat;
    TwoOctets(hi as nat, lo as nat, c, d);
    LowOctet(d, f.ra, z, 32 * B(f.ad) + 16 * B(f.cd) + f.rcode as nat);
  }

  lemma LowOctet(d: nat, ra: bool, z: bool, rest: nat)
    requires d == 128 * B(ra) + 64 * B(z) + rest && rest < 64
    ensures d / 128 == B(ra) && d % 64 == rest
  {
  }

  lemma TwoOctets(a: nat, b: nat, c: nat, d: nat)
    requires 256 * a + b == 256 * c + d && b < 256 && d < 256
    ensures a == c && b == d
  {
  }

  /** Of every accepted message the identifier, the flags and the four counts stand in the first twelve octets. */
  lemma HeaderFormat(buf: seq<byte>, m: Message)
    requires ParseMessage(Layout, buf) == Ok(m)
    ensures |buf| >= 12 && m.id == Number16(buf, 0) && FlagsStand(buf[2], buf[3], m.flags)
    ensures |m.questions| == Number16(buf, 4) <= 16 && |m.answers| == Number16(buf, 6) <= 4096
    ensures |m.authorities| == Number16(buf, 8) <= 4096
    ensures |m.additionals| + (if m.edns.Some? then 1 else 0) == Number16(buf, 10) <= 4096
  {
    var qd, an, ns, ar := U16At(buf, 4).value, U16At(buf, 6).value, U16At(buf, 8).value, U16At(buf, 10).value;
    var flags := ToFlags(U16At(buf, 2).value);
    FlagsFormat(buf[2], buf[3]);
    hide ParseSections, GoodSections, ToFlags, FlagsStand;
    SectionsAccepted(ParseQuestion, RecordParser(Layout), buf, U16At(buf, 0).value, flags, qd, an, ns, ar);
    SectionSizes(m, qd, an, ns, ar);
    IdOf(ParseQuestion, RecordParser(Layout), buf, U16At(buf, 0).value, flags, qd, an, ns, ar);
  }

  lemma SectionSizes(m: Message, qd: nat, an: nat, ns: nat, ar: nat)
    requires GoodSections(m, qd, an, ns, ar)
    ensures |m.questions| == qd && |m.answers| == an && |m.authorities| == ns
    ensures |m.additionals| + (if m.edns.Some? then 1 else 0) == ar
  {
  }

  lemma IdOf(ask: Parser<Question>, parse: Parser<Record>, buf: seq<byte>, id: uint16, flags: Flags, qd: nat, an: nat,
             ns: nat, ar: nat)
    requires ParseSections(ask, parse, buf, id, flags, qd, an, ns, ar).Ok?
    ensures ParseSections(ask, parse, buf, id, flags, qd, an, ns, ar).value.id == id
  {
  }

  // ---------------------------------------------------------------------------------------------
  // Questions and records

  /** A question is a name, its type and its class. */
  lemma QuestionFormat(buf: seq<byte>, pos: nat)
    requires ParseQuestion(buf, pos).Ok?
    ensures var (q, next) := ParseQuestion(buf, pos).value;
            && NameAt(buf, pos) == Ok(Parsed(q.qname, next - 4)) && 4 <= next <= |buf|
            && q.qtype == Number16(buf, next - 4) && q.qclass == Number16(buf, next - 2)
  {
    hide NameAt;
  }

  /** A record is a name that ends at `p`, its type, its class, its TTL and its RDATA by their length. */
  lemma RecordFormat(buf: seq<byte>, pos: nat) returns (p: nat)
    requires ParseRecord(Layout, buf, pos).Ok?
    ensures var (r, next) := ParseRecord(Layout, buf, pos).value;
            && NameAt(buf, pos) == Ok(Parsed(r.name, p)) && p + 10 <= next <= |buf|
            && r.rrType == Number16(buf, p) && r.class_ == Number16(buf, p + 2) && r.ttl == Number32(buf, p + 4)
            && next == p + 10 + Number16(buf, p + 8)
            && ParseFields(buf, p + 10, next, Layout(r.rrType), []) == Ok(r.rdata)
  {
    hide NameAt, ParseFields, Layout;
    p := NameAt(buf, pos).value.end;
  }

  // ---------------------------------------------------------------------------------------------
  // EDNS

  /** The OPT record keeps the payload size in its class and the extended rcode, the version and the DO bit in
      its TTL. */
  lemma OptFormat(buf: seq<byte>, pos: nat, p: nat, e: Edns)
    requires ParseRecord(Layout, buf, pos).Ok? && NameAt(buf, pos).Ok? && p == NameAt(buf, pos).value.end
    requires AddOpt(None, ParseRecord(Layout, buf, pos).value.0) == Ok(Some(e))
    ensures p + 10 <= |buf| && e.udpSize == Number16(buf, p + 2)
    ensures e.extRcode == buf[p + 4] && e.version == buf[p + 5] && (e.dnssecOk <==> buf[p + 6] >= 128)
  {
    var r := ParseRecord(Layout, buf, pos).value.0;
    FromOpt(r, e);
    OptionsKept(r.class_, r.ttl, e.options);
    hide *;
    var p' := RecordFormat(buf, pos);
    Number32Is(buf, p + 4);
    TtlFields(r.ttl, buf[p + 4], buf[p + 5], buf[p + 6], buf[p + 7], e);
  }

  lemma FromOpt(r: Record, e: Edns)
    requires AddOpt(None, r) == Ok(Some(e))
    ensures e == FromTtl(r.class_, r.ttl, e.options)
  {
    hide ParseOptions, OptData, FromTtl;
    assert e == FromTtl(r.class_, r.ttl, ParseOptions(OptData(r)).value);
    OptionsKept(r.class_, r.ttl, ParseOptions(OptData(r)).value);
  }

  lemma OptionsKept(size: uint16, ttl: uint32, options: seq<EdnsOption>)
    ensures FromTtl(size, ttl, options).options == options && FromTtl(size, ttl, options).udpSize == size
  {
  }

  lemma Number32Is(buf: seq<byte>, p: nat)
    requires p + 4 <= |buf|
    ensures Number32(buf, p) == 0x100_0000 * buf[p] as nat + 0x1_0000 * buf[p + 1] as nat + 256 * buf[p + 2] as nat
                                + buf[p + 3] as nat
  {
  }

  lemma TtlFields(ttl: uint32, a: byte, b: byte, c: byte, d: byte, e: Edns)
    requires ttl == 0x100_0000 * a as nat + 0x1_0000 * b as nat + 256 * c as nat + d as nat
    requires exists size :: e == FromTtl(size, ttl, e.options)
    ensures e.extRcode == a && e.version == b && (e.dnssecOk <==> c >= 128)
  {
    TtlOctets(a as nat, b as nat, c as nat, d as nat);
  }

  lemma TtlOctets(a: nat, b: nat, c: nat, d: nat)
    requires a < 256 && b < 256 && c < 256 && d < 256
    ensures var v := 0x100_0000 * a + 0x1_0000 * b + 256 * c + d;
            v / 0x100_0000 == a && v / 0x1_0000 % 0x100 == b && (v / 0x8000 % 2 == 1 <==> c >= 128)
  {
    var v := 0x100_0000 * a + 0x1_0000 * b + 256 * c + d;
    var bit := if c >= 128 then 1 else 0;
    DivMod(v, 0x1_0000, 256 * a + b, 256 * c + d);
    DivMod(v, 0x8000, (256 * a + b) * 2 + bit, 256 * c + d - 0x8000 * bit);
  }

  /** An option is its code, the length of its data and its data. */
  lemma OptionFormat(buf: seq<byte>, pos: nat, end: nat)
    requires ReadOption(buf, pos, end).Ok?
    ensures var (o, next) := ReadOption(buf, pos, end).value;
            && pos + 4 <= next <= end && next <= |buf| && next == pos + 4 + Number16(buf, pos + 2)
            && ParsePayload(Number16(buf, pos), buf[pos + 4..next]) == Ok(o)
  {
    hide ParsePayload;
  }

  /** What each code stands for. */
  lemma PayloadFormat(code: uint16, data: seq<byte>)
    requires ParsePayload(code, data).Ok?
    ensures match ParsePayload(code, data).value
            case Nsid(id) => code == 3 && id == data
            case Subnet(e) => code == 8 && |data| >= 4 && EcsStands(data, e)
            case Cookie(client, server) => code == 10 && client + server == data && |client| == 8
            case TcpKeepalive(None) => code == 11 && data == []
            case TcpKeepalive(Some(t)) => code == 11 && |data| == 2 && t == Number16(data, 0)
            case Padding(n) => code == 12 && n == |data| % 0x1_0000
            case KeyTag(tags) => code == 14 && |data| % 2 == 0
            case Ede(info, extra) => code == 15 && |data| >= 2 && info == Number16(data, 0) && extra == data[2..]
            case Other(c, d) => c == code && d == data && code !in {3, 8, 10, 11, 12, 14, 15}
  {
    hide ReadItems, TailClear;
  }

  /** A client subnet is its family, the two prefix lengths and the address (section 6 of RFC 7871). */
  ghost predicate EcsStands(data: seq<byte>, e: Ecs)
    requires |data| >= 4
  {
    && e.family == Number16(data, 0) && e.source == data[2] && e.scope == data[3] && e.address == data[4..]
    && (e.family == 1 || e.family == 2) && e.source as nat <= (if e.family == 1 then 32 else 128)
    && 8 * |e.address| - 7 <= e.source as nat <= 8 * |e.address|
  }

  /** The subnet a constructor makes of an address is of the family of its length, with the prefix asked for,
      no scope, and the address masked; it cannot be made only if the prefix is longer than the address. */
  lemma ConstructedSubnet(ip: seq<byte>, prefix: byte)
    requires |ip| == 4 || |ip| == 16
    ensures match NewEcs(ip, prefix)
            case Err(_) => prefix as nat > 8 * |ip|
            case Ok(e) =>
              && prefix as nat <= 8 * |ip| && e.source == prefix && e.scope == 0 && e.address == Masked(ip, prefix)
              && (e.family == 1 <==> |ip| == 4) && (e.family == 2 <==> |ip| == 16)
  {
  }

  // ---------------------------------------------------------------------------------------------
  // RDATA

  /** What RDATA consists of, as the standards draw it. */
  datatype Part = Octets(n: nat) | AName | NameToEnd | Text | Texts | TypeBits | Pairs | Tail

  /** The parts of each record type. */
  function PartsOf(t: uint16): seq<Part> {
    if t == 1 then [Octets(4)]
    else if t == 28 then [Octets(16)]
    else if t in {2, 5, 12, 39} then [NameToEnd]
    else if t == 15 then [Octets(2), NameToEnd]
    else if t == 6 then [AName, AName, Octets(20)]
    else if t == 16 then [Texts]
    else if t == 33 then [Octets(6), NameToEnd]
    else if t == 35 then [Octets(4), Text, Text, Text, NameToEnd]
    else if t in {43, 48, 59, 60} then [Octets(4), Tail]
    else if t in {24, 46} then [Octets(18), AName, Tail]
    else if t == 47 then [AName, TypeBits]
    else if t == 50 then [Octets(4), Text, Text, TypeBits]
    else if t == 51 then [Octets(4), Text]
    else if t == 257 then [Octets(1), Text, Tail]
    else if t in {52, 53} then [Octets(3), Tail]
    else if t in {64, 65} then [Octets(2), AName, Pairs]
    else [Tail]
  }

  /** Where a part that starts at `pos` ends, if it is all there. */
  function PartEnd(buf: seq<byte>, pos: nat, end: nat, p: Part): Option<nat>
    requires pos <= end <= |buf|
  {
    match p
    case Octets(n) => if pos + n <= end then Some(pos + n) else None
    case AName =>
      (match NameAt(buf, pos) case Err(_) => None case Ok(n) => if n.end <= end then Some(n.end) else None)
    case NameToEnd =>
      (match NameAt(buf, pos) case Err(_) => None case Ok(n) => if n.end == end then Some(end) else None)
    case Text => if pos < end && pos + 1 + buf[pos] as nat <= end then Some(pos + 1 + buf[pos] as nat) else None
    case Texts => if ReadItems(ReadStr, buf, pos, end, []).Ok? then Some(end) else None
    case TypeBits => if ParseBitmap(buf[..end], pos, []).Ok? then Some(end) else None
    case Pairs => if ReadItems(ReadParam, buf, pos, end, []).Ok? then Some(end) else None
    case Tail => Some(end)
  }

  /** The parts from `i` on are there, one after another. */
  predicate PartsStand(buf: seq<byte>, pos: nat, end: nat, ps: seq<Part>, i: nat)
    requires pos <= end <= |buf| && i <= |ps|
    decreases |ps| - i
  {
    i == |ps| || match PartEnd(buf, pos, end, ps[i])
                 case None => false
                 case Some(next) => pos <= next <= end && PartsStand(buf, next, end, ps, i + 1)
  }

  /** The fields from `j` on are there. */
  predicate KindsStand(buf: seq<byte>, pos: nat, end: nat, ks: seq<Kind>, j: nat)
    requires pos <= end <= |buf| && j <= |ks|
    decreases |ks| - j
  {
    j == |ks| || match ParseField(buf, pos, end, ks[j])
                 case Err(_) => false
                 case Ok((_, next)) => pos <= next <= end && KindsStand(buf, next, end, ks, j + 1)
  }

  lemma {:induction false} ParsedStand(buf: seq<byte>, pos: nat, end: nat, ks: seq<Kind>, done: seq<Field>)
    requires pos <= end <= |buf| && |done| <= |ks|
    ensures ParseFields(buf, pos, end, ks, done).Ok? <==> KindsStand(buf, pos, end, ks, |done|)
    decreases |ks| - |done|
  {
    hide ParseField;
    if |done| < |ks| && ParseField(buf, pos, end, ks[|done|]).Ok? {
      var (f, next) := ParseField(buf, pos, end, ks[|done|]).value;
      ParseFieldBounds(buf, pos, end, ks[|done|]);
      ParsedStand(buf, next, end, ks, done + [f]);
    }
  }

  /** The octets of a field of fixed size; zero for any other. */
  function SizeOf(k: Kind): nat {
    match k
    case AnU8 => 1
    case AnU16 => 2
    case AnU32 => 4
    case Fixed(n) => n
    case _ => 0
  }

  /** Whether the fields of fixed size from `j` on make up exactly `n` octets, and where they end. */
  function RunEnd(ks: seq<Kind>, j: nat, n: nat): Option<nat>
    requires j <= |ks|
    decreases |ks| - j
  {
    if n == 0 then Some(j)
    else if j == |ks| || SizeOf(ks[j]) == 0 || SizeOf(ks[j]) > n then None
    else RunEnd(ks, j + 1, n - SizeOf(ks[j]))
  }

  /** Where the fields end that a part starting with field `j` is read as. */
  function FieldsEnd(ks: seq<Kind>, j: nat, p: Part): Option<nat>
    requires j <= |ks|
  {
    if p.Octets? then RunEnd(ks, j, p.n)
    else if j == |ks| then None
    else
      var fits := match p
                  case Octets(_) => false
                  case AName => ks[j].ADomain? && !ks[j].exact
                  case NameToEnd => ks[j].ADomain? && ks[j].exact
                  case Text => ks[j].AStr?
                  case Texts => ks[j].ManyStrs?
                  case TypeBits => ks[j].Bitmap?
                  case Pairs => ks[j].ManyParams?
                  case Tail => ks[j].Rest?;
      if fits then Some(j + 1) else None
  }

  /** The fields from `j` on are the parts from `i` on. */
  predicate Draws(ps: seq<Part>, i: nat, ks: seq<Kind>, j: nat)
    requires i <= |ps| && j <= |ks|
    decreases |ps| - i
  {
    if i == |ps| then j == |ks|
    else
      match FieldsEnd(ks, j, ps[i])
      case None => false
      case Some(k) => k <= |ks| && Draws(ps, i + 1, ks, k)
  }

  lemma SizedStands(buf: seq<byte>, pos: nat, end: nat, ks: seq<Kind>, j: nat)
    requires pos <= end <= |buf| && j < |ks| && SizeOf(ks[j]) > 0
    ensures KindsStand(buf, pos, end, ks, j) <==>
            pos + SizeOf(ks[j]) <= end && KindsStand(buf, pos + SizeOf(ks[j]), end, ks, j + 1)
  {
  }

  lemma {:induction false} RunEnds(ks: seq<Kind>, j: nat, n: nat)
    requires j <= |ks| && RunEnd(ks, j, n).Some?
    ensures j <= RunEnd(ks, j, n).value <= |ks|
    ensures n > 0 ==> j < |ks| && 0 < SizeOf(ks[j]) <= n && RunEnd(ks, j, n) == RunEnd(ks, j + 1, n - SizeOf(ks[j]))
    decreases |ks| - j
  {
    if n > 0 {
      RunEnds(ks, j + 1, n - SizeOf(ks[j]));
      hide SizeOf;
    }
  }

  lemma {:induction false} RunStands(buf: seq<byte>, pos: nat, end: nat, ks: seq<Kind>, j: nat, n: nat, k: nat)
    requires pos <= end <= |buf| && j <= |ks| && RunEnd(ks, j, n) == Some(k) && k <= |ks|
    ensures KindsStand(buf, pos, end, ks, j) <==> pos + n <= end && KindsStand(buf, pos + n, end, ks, k)
    decreases |ks| - j
  {
    hide KindsStand, SizeOf, ParseField;
    RunEnds(ks, j, n);
    if n == 0 {
      assert pos + n == pos && k == j;
    } else {
      hide *;
      SizedStands(buf, pos, end, ks, j);
      var size := SizeOf(ks[j]);
      if pos + size <= end {
        RunStands(buf, pos + size, end, ks, j + 1, n - size, k);
        assert pos + size + (n - size) == pos + n;
      }
    }
  }

  lemma OnePart(buf: seq<byte>, pos: nat, end: nat, p: Part, ks: seq<Kind>, j: nat)
    requires pos <= end <= |buf| && j <= |ks| && !p.Octets? && FieldsEnd(ks, j, p).Some?
    ensures j < |ks| && FieldsEnd(ks, j, p).value == j + 1
    ensures var next := PartEnd(buf, pos, end, p);
            KindsStand(buf, pos, end, ks, j) <==>
            next.Some? && pos <= next.value <= end && KindsStand(buf, next.value, end, ks, j + 1)
  {
    hide NameAt, ReadItems, ParseBitmap;
  }

  lemma AnyPart(buf: seq<byte>, pos: nat, end: nat, p: Part, ks: seq<Kind>, j: nat, k: nat)
    requires pos <= end <= |buf| && j <= |ks| && FieldsEnd(ks, j, p) == Some(k) && k <= |ks|
    ensures var next := PartEnd(buf, pos, end, p);
            KindsStand(buf, pos, end, ks, j) <==>
            next.Some? && pos <= next.value <= end && KindsStand(buf, next.value, end, ks, k)
  {
    hide KindsStand, RunEnd;
    if p.Octets? {
      RunStands(buf, pos, end, ks, j, p.n, k);
    } else {
      OnePart(buf, pos, end, p, ks, j);
    }
  }

  lemma {:induction false} DrawnStand(buf: seq<byte>, pos: nat, end: nat, ps: seq<Part>, i: nat, ks: seq<Kind>, j: nat)
    requires pos <= end <= |buf| && i <= |ps| && j <= |ks| && Draws(ps, i, ks, j)
    ensures KindsStand(buf, pos, end, ks, j) <==> PartsStand(buf, pos, end, ps, i)
    decreases |ps| - i
  {
    if i < |ps| {
      var k := FieldsEnd(ks, j, ps[i]).value;
      var next := PartEnd(buf, pos, end, ps[i]);
      hide FieldsEnd, PartEnd, KindsStand;
      AnyPart(buf, pos, end, ps[i], ks, j, k);
      if next.Some? && pos <= next.value <= end {
        DrawnStand(buf, next.value, end, ps, i + 1, ks, k);
      }
    }
  }

  lemma SoaDraws()
    ensures Draws(PartsOf(6), 0, Layout(6), 0)
  {
  }

  lemma NaptrDraws()
    ensures Draws(PartsOf(35), 0, Layout(35), 0)
  {
  }

  lemma SignatureDraws()
    ensures Draws(PartsOf(46), 0, Layout(46), 0)
    ensures PartsOf(24) == PartsOf(46) && Layout(24) == Layout(46)
  {
  }

  lemma ServiceDraws()
    ensures Draws(PartsOf(33), 0, Layout(33), 0)
  {
  }

  lemma KeyDraws()
    ensures Draws(PartsOf(43), 0, Layout(43), 0)
    ensures forall t: uint16 :: t in {48, 59, 60} ==> PartsOf(t) == PartsOf(43) && Layout(t) == Layout(43)
  {
  }

  lemma HashDraws()
    ensures Draws(PartsOf(50), 0, Layout(50), 0) && Draws(PartsOf(51), 0, Layout(51), 0)
  {
  }

  lemma AssociationDraws()
    ensures Draws(PartsOf(52), 0, Layout(52), 0) && Draws(PartsOf(53), 0, Layout(53), 0)
  {
  }

  lemma NameDraws()
    ensures Draws(PartsOf(2), 0, Layout(2), 0) && Draws(PartsOf(15), 0, Layout(15), 0)
    ensures forall t: uint16 :: t in {5, 12, 39} ==> PartsOf(t) == PartsOf(2) && Layout(t) == Layout(2)
  {
  }

  lemma AddressDraws()
    ensures Draws(PartsOf(1), 0, Layout(1), 0) && Draws(PartsOf(28), 0, Layout(28), 0)
    ensures Draws(PartsOf(16), 0, Layout(16), 0)
  {
  }

  lemma BindingDraws()
    ensures Draws(PartsOf(47), 0, Layout(47), 0) && Draws(PartsOf(64), 0, Layout(64), 0)
    ensures Draws(PartsOf(257), 0, Layout(257), 0) && PartsOf(65) == PartsOf(64) && Layout(65) == Layout(64)
  {
  }

  const STRUCTURED: set<uint16> := {1, 2, 5, 6, 12, 15, 16, 24, 28, 33, 35, 39, 43, 46, 47, 48, 50, 51, 52, 53, 59, 60,
                                    64, 65, 257}

  lemma OtherDraws(t: uint16)
    requires t !in STRUCTURED
    ensures Draws(PartsOf(t), 0, Layout(t), 0)
  {
    assert PartsOf(t) == [Tail] && Layout(t) == [Rest];
    hide PartsOf, Layout;
    assert Draws([Tail], 0, [Rest], 0);
  }

  lemma EveryTypeDraws(t: uint16)
    ensures Draws(PartsOf(t), 0, Layout(t), 0)
  {
    hide Draws, Layout, PartsOf;
    AddressDraws();
    NameDraws();
    BindingDraws();
    SoaDraws();
    NaptrDraws();
    SignatureDraws();
    ServiceDraws();
    KeyDraws();
    HashDraws();
    AssociationDraws();
    if t !in STRUCTURED {
      OtherDraws(t);
    }
  }

  /** RDATA of any type is accepted if and only if its parts stand there as the standards draw them. */
  lemma RDataFormat(buf: seq<byte>, pos: nat, end: nat, t: uint16)
    requires pos <= end <= |buf|
    ensures ParseFields(buf, pos, end, Layout(t), []).Ok? <==> PartsStand(buf, pos, end, PartsOf(t), 0)
  {
    hide ParseFields, Layout, PartsOf, PartsStand, KindsStand, Draws;
    ParsedStand(buf, pos, end, Layout(t), []);
    EveryTypeDraws(t);
    DrawnStand(buf, pos, end, PartsOf(t), 0, Layout(t), 0);
  }

  /** Only the names in NS, CNAME, SOA, PTR, MX and DNAME are written with compression. */
  lemma CompressedTypes(t: uint16)
    ensures (exists i :: 0 <= i < |Layout(t)| && Layout(t)[i].ADomain? && Layout(t)[i].compress) <==>
            t in {2, 5, 6, 12, 15, 39}
  {
    if t in {2, 5, 6, 12, 39} {
      assert Layout(t)[0].ADomain? && Layout(t)[0].compress;
    } else if t == 15 {
      assert Layout(t)[1].ADomain? && Layout(t)[1].compress;
    }
  }

  // ---------------------------------------------------------------------------------------------
  // Fields

  /** The type `t` is marked in the window at `pos`: in the octet of its number modulo 256 over 8, at its number
      modulo 8 from the most significant bit (section 4.1.2 of RFC 4034). */
  ghost predicate MarkedAt(data: seq<byte>, pos: nat, t: Type) {
    && pos + 2 + t % 256 / 8 < |data| && data[pos] as nat == t / 256 && t % 256 / 8 < data[pos + 1] as nat
    && BitAt(data[pos + 2 + t % 256 / 8] as nat, 7 - t % 8)
  }

  /** The type is marked in one of the windows from `pos` on. */
  ghost predicate Marked(data: seq<byte>, pos: nat, t: Type)
    decreases |data| - pos
  {
    pos + 2 <= |data| && (MarkedAt(data, pos, t) || Marked(data, pos + 2 + data[pos + 1] as nat, t))
  }

  lemma PlaceIs(window: byte, i: nat, bit: nat, t: Type)
    requires i < 32 && bit < 8
    ensures t == TypeAt(window, i, bit) <==> t / 256 == window as nat && t % 256 / 8 == i && t % 8 == bit
  {
    if t == TypeAt(window, i, bit) {
      DivMod(t, 256, window as int, i * 8 + bit);
      DivMod(i * 8 + bit, 8, i, bit);
      DivMod(t, 8, window as int * 32 + i, bit);
    }
  }

  lemma {:induction false} OctetHolds(window: byte, i: nat, b: byte, bits: nat, done: seq<Type>, t: Type)
    requires i < 32 && bits <= 8
    ensures t in PushOctet(window, i, b, bits, done) <==>
            t in done || (t / 256 == window as nat && t % 256 / 8 == i && t % 8 < bits && BitAt(b as nat, 7 - t % 8))
  {
    if bits > 0 {
      OctetHolds(window, i, b, bits - 1, done, t);
      PlaceIs(window, i, bits - 1, t);
      hide TypeAt, BitAt;
    }
  }

  lemma {:induction false} WindowHolds(window: byte, bytes: seq<byte>, base: nat, n: nat, done: seq<Type>, t: Type)
    requires base + n <= |bytes| && n <= 32
    ensures t in PushWindow(window, bytes, base, n, done) <==>
            t in done || (t / 256 == window as nat && t % 256 / 8 < n
                          && BitAt(bytes[base + t % 256 / 8] as nat, 7 - t % 8))
  {
    if n > 0 {
      WindowHolds(window, bytes, base, n - 1, done, t);
      hide PushOctet, BitAt;
      OctetHolds(window, n - 1, bytes[base + n - 1], 8, PushWindow(window, bytes, base, n - 1, done), t);
    }
  }

  /** The types of an accepted bitmap are exactly those marked in its windows. */
  lemma {:induction false} BitmapFormat(data: seq<byte>, pos: nat, done: seq<Type>, t: Type)
    requires pos <= |data| && ParseBitmap(data, pos, done).Ok?
    ensures t in ParseBitmap(data, pos, done).value <==> t in done || Marked(data, pos, t)
    decreases |data| - pos
  {
    if pos < |data| {
      var len := data[pos + 1] as nat;
      var more := PushWindow(data[pos], data, pos + 2, len, done);
      WindowHolds(data[pos], data, pos + 2, len, done, t);
      hide PushWindow, BitAt;
      BitmapFormat(data, pos + 2 + len, more, t);
    }
  }

  /** What a field holds is what stands in its octets. */
  lemma FieldFormat(buf: seq<byte>, pos: nat, end: nat, k: Kind)
    requires pos <= end <= |buf| && ParseField(buf, pos, end, k).Ok?
    ensures var (f, next) := ParseField(buf, pos, end, k).value;
            && pos <= next <= end
            && match f
               case U8(v) => next == pos + 1 && v == buf[pos]
               case U16(v) => next == pos + 2 && v == Number16(buf, pos)
               case U32(v) => next == pos + 4 && v == Number32(buf, pos)
               case Raw(s) => s == buf[pos..next]
               case Domain(n, _) => NameAt(buf, pos) == Ok(Parsed(n, next))
               case Str(s) => pos < next && s == buf[pos + 1..next] && |s| == buf[pos] as nat
               case Strs(_) => next == end
               case Types(ts) => next == end && forall t: Type :: t in ts <==> Marked(buf[..end], pos, t)
               case Params(_) => next == end
  {
    ParseFieldBounds(buf, pos, end, k);
    hide NameAt, ReadItems, ParseBitmap, Marked;
    if k.Bitmap? {
      forall t: Type ensures t in ParseBitmap(buf[..end], pos, []).value <==> Marked(buf[..end], pos, t) {
        BitmapFormat(buf[..end], pos, [], t);
      }
    }
  }

  /** A pointer is two octets, the first of which is at least 192, and leads to their number without its top
      two bits (section 4.1.4 of RFC 1035); a label is its length, from 1 to 63, and its octets. */
  lemma ElementFormat(buf: seq<byte>, p: nat)
    ensures match Peek(buf, p)
            case RootHere => p < |buf| && buf[p] == 0
            case LabelHere(l) =>
              p + 1 + |l| <= |buf| && 1 <= buf[p] as nat == |l| <= 63 && l == buf[p + 1..p + 1 + |l|]
            case PointerHere(to) => p + 2 <= |buf| && buf[p] >= 192 && to == Number16(buf, p) - 0xc000 < |buf|
            case Unreadable =>
              || p >= |buf| || (buf[p] < 64 && p + 1 + buf[p] as nat > |buf|) || 64 <= buf[p] < 192
              || (buf[p] >= 192 && (p + 1 == |buf| || Number16(buf, p) - 0xc000 >= |buf|))
  {
  }

  /** Folding turns the letters A to Z into a to z and leaves every other octet as it is. */
  lemma {:induction false} FoldFormat(s: seq<byte>, i: nat)
    requires i < |s|
    ensures LowerAll(s)[i] == if 'A' as int <= s[i] as int <= 'Z' as int then s[i] + 32 else s[i]
  {
    if i > 0 {
      FoldFormat(s[1..], i - 1);
    }
  }

  // ---------------------------------------------------------------------------------------------
  // Sections

  lemma {:induction false} ManyStand<T>(parse: Parser<T>, buf: seq<byte>, pos: nat, n: nat) returns (ends: seq<nat>)
    requires ParseMany(parse, buf, pos, n).Ok?
    ensures var (xs, last) := ParseMany(parse, buf, pos, n).value;
            StandsIn(parse, buf, ends, xs) && |xs| == n && ends[0] == pos && ends[n] == last
  {
    if n == 0 {
      ends := [pos];
    } else {
      var front := ManyStand(parse, buf, pos, n - 1);
      ends := front + [ParseMany(parse, buf, pos, n).value.1];
    }
  }

  /** All but the OPT records. */
  function Ordinary(rs: seq<Record>): seq<Record> {
    if rs == [] then []
    else Ordinary(rs[..|rs| - 1]) + if rs[|rs| - 1].rrType == 41 then [] else [rs[|rs| - 1]]
  }

  /** The ordinary ones among `rs`, and the EDNS field of the one OPT record, if there is one. */
  ghost predicate SetApart(records: seq<Record>, edns: Option<Edns>, rs: seq<Record>) {
    && records == Ordinary(rs)
    && (edns.Some? <==> exists i :: 0 <= i < |rs| && rs[i].rrType == 41)
    && (forall i :: 0 <= i < |rs| && rs[i].rrType == 41 ==> AddOpt(None, rs[i]) == Ok(edns))
  }

  lemma OrdinaryExtra(records: seq<Record>, edns: Option<Edns>, rs: seq<Record>, r: Record)
    requires SetApart(records, edns, rs) && r.rrType != 41
    ensures SetApart(records + [r], edns, rs + [r])
  {
    assert (rs + [r])[..|rs|] == rs;
    hide AddOpt;
    if i :| 0 <= i < |rs| && rs[i].rrType == 41 {
      assert (rs + [r])[i].rrType == 41;
    }
  }

  lemma OptExtra(records: seq<Record>, edns: Option<Edns>, rs: seq<Record>, r: Record)
    requires SetApart(records, None, rs) && r.rrType == 41 && AddOpt(None, r) == Ok(edns) && edns.Some?
    ensures SetApart(records, edns, rs + [r])
  {
    assert (rs + [r])[..|rs|] == rs && (rs + [r])[|rs|] == r;
    hide AddOpt;
    AppendNothing(Ordinary(rs));
  }

  lemma ExtraSetApart(x: Extra, rs: seq<Record>, r: Record, next: nat)
    requires SetApart(x.records, x.edns, rs) && AddExtra(x, r, next).Ok?
    ensures var x' := AddExtra(x, r, next).value; SetApart(x'.records, x'.edns, rs + [r]) && x'.pos == next
  {
    hide SetApart, ParseOptions, OptData, FromTtl;
    if r.rrType == 41 {
      OptExtra(x.records, AddExtra(x, r, next).value.edns, rs, r);
    } else {
      OrdinaryExtra(x.records, x.edns, rs, r);
    }
  }

  lemma AnotherAfter<T>(parse: Parser<T>, buf: seq<byte>, ends: seq<nat>, items: seq<T>, x: T, next: nat)
    requires StandsIn(parse, buf, ends, items) && ItemAt(parse, buf, ends[|items|]) == Ok((x, next))
    ensures StandsIn(parse, buf, ends + [next], items + [x])
  {
  }

  lemma {:induction false} ExtrasStand(parse: Parser<Record>, buf: seq<byte>, pos: nat, n: nat)
    returns (ends: seq<nat>, rs: seq<Record>)
    requires ParseExtras(parse, buf, pos, n).Ok?
    ensures var x := ParseExtras(parse, buf, pos, n).value;
            && StandsIn(parse, buf, ends, rs) && |rs| == n && ends[0] == pos && ends[n] == x.pos
            && SetApart(x.records, x.edns, rs)
  {
    if n == 0 {
      ends, rs := [pos], [];
    } else {
      ends, rs := ExtrasStand(parse, buf, pos, n - 1);
      var x := ParseExtras(parse, buf, pos, n - 1).value;
      var (r, next) := ItemAt(parse, buf, x.pos).value;
      assert AddExtra(x, r, next) == ParseExtras(parse, buf, pos, n);
      hide SetApart, AddExtra, ParseExtras, StandsIn;
      ExtraSetApart(x, rs, r, next);
      AnotherAfter(parse, buf, ends, rs, r, next);
      assert |ends| == n by {
        EndsAre(parse, buf, ends, rs);
      }
      ends, rs := ends + [next], rs + [r];
    }
  }

  lemma EndsAre<T>(parse: Parser<T>, buf: seq<byte>, ends: seq<nat>, items: seq<T>)
    requires StandsIn(parse, buf, ends, items)
    ensures |ends| == |items| + 1
  {
  }

  /** In an accepted message the questions come first, then the answers, the authorities and the additional
      records, each straight after the one before; the OPT record is the one of type 41 among the last. */
  lemma SectionOrder(buf: seq<byte>, m: Message) returns (asked: seq<nat>, first: seq<nat>, second: seq<nat>,
                                                          third: seq<nat>, rs: seq<Record>)
    requires ParseMessage(Layout, buf) == Ok(m)
    ensures StandsIn(ParseQuestion, buf, asked, m.questions) && asked[0] == 12
    ensures StandsIn(RecordParser(Layout), buf, first, m.answers) && first[0] == asked[|m.questions|]
    ensures StandsIn(RecordParser(Layout), buf, second, m.authorities) && second[0] == first[|m.answers|]
    ensures StandsIn(RecordParser(Layout), buf, third, rs) && third[0] == second[|m.authorities|]
    ensures SetApart(m.additionals, m.edns, rs)
  {
    var qd, an, ns, ar := U16At(buf, 4).value, U16At(buf, 6).value, U16At(buf, 8).value, U16At(buf, 10).value;
    asked, first, second, third, rs := OrderOf(ParseQuestion, RecordParser(Layout), buf, U16At(buf, 0).value,
                                               ToFlags(U16At(buf, 2).value), qd, an, ns, ar, m);
  }

  lemma OrderOf(ask: Parser<Question>, parse: Parser<Record>, buf: seq<byte>, id: uint16, flags: Flags, qd: nat,
                an: nat, ns: nat, ar: nat, m: Message)
    returns (asked: seq<nat>, first: seq<nat>, second: seq<nat>, third: seq<nat>, rs: seq<Record>)
    requires ParseSections(ask, parse, buf, id, flags, qd, an, ns, ar) == Ok(m)
    ensures StandsIn(ask, buf, asked, m.questions) && asked[0] == 12
    ensures StandsIn(parse, buf, first, m.answers) && first[0] == asked[|m.questions|]
    ensures StandsIn(parse, buf, second, m.authorities) && second[0] == first[|m.answers|]
    ensures StandsIn(parse, buf, third, rs) && third[0] == second[|m.authorities|]
    ensures SetApart(m.additionals, m.edns, rs)
  {
    hide ParseMany, ParseExtras, SetApart, StandsIn;
    asked := ManyStand(ask, buf, 12, qd);
    var p1 := ParseMany(ask, buf, 12, qd).value.1;
    first := ManyStand(parse, buf, p1, an);
    var p2 := ParseMany(parse, buf, p1, an).value.1;
    second := ManyStand(parse, buf, p2, ns);
    var p3 := ParseMany(parse, buf, p2, ns).value.1;
    third, rs := ExtrasStand(parse, buf, p3, ar);
  }
}
