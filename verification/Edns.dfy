/** EDNS(0): the OPT pseudo-record's fields and options (src/edns.rs). */
module Edns {
  import opened Octets
  import opened Items
  import opened Powers

  /** Client subnet (RFC 7871). */
  datatype Ecs = Ecs(family: uint16, source: byte, scope: byte, address: seq<byte>)

  datatype EdnsOption =
    | Subnet(ecs: Ecs)
    | Cookie(client: seq<byte>, server: seq<byte>)
    | TcpKeepalive(timeout: Option<uint16>)
    | Padding(amount: uint16)
    | KeyTag(tags: seq<uint16>)
    | Nsid(id: seq<byte>)
    | Ede(infoCode: uint16, extra: seq<byte>)
    | Other(other: uint16, data: seq<byte>)

  function Code(o: EdnsOption): uint16 {
    match o
    case Nsid(_) => 3
    case Subnet(_) => 8
    case Cookie(_, _) => 10
    case TcpKeepalive(_) => 11
    case Padding(_) => 12
    case KeyTag(_) => 14
    case Ede(_, _) => 15
    case Other(code, _) => code
  }

  predicate KnownCode(code: uint16) {
    code in {3, 8, 10, 11, 12, 14, 15}
  }

  datatype Edns = Edns(udpSize: uint16, extRcode: byte, version: byte, dnssecOk: bool, options: seq<EdnsOption>)

  // ---------------------------------------------------------------------------------------------
  // The TTL field: extended rcode, version, DO bit

  function TtlField(e: Edns): uint32 {
    e.extRcode as int * 0x100_0000 + e.version as int * 0x1_0000 + if e.dnssecOk then 0x8000 else 0
  }

  function FromTtl(udpSize: uint16, ttl: uint32, options: seq<EdnsOption>): Edns {
    Edns(udpSize, (ttl / 0x100_0000) as byte, (ttl / 0x1_0000 % 0x100) as byte, ttl / 0x8000 % 2 == 1, options)
  }

  lemma TtlRoundTrip(e: Edns)
    ensures FromTtl(e.udpSize, TtlField(e), e.options) == e
  {
    TtlDigits(e.extRcode as int, e.version as int, if e.dnssecOk then 1 else 0);
  }

  lemma TtlDigits(a: nat, b: nat, d: nat)
    requires a < 0x100 && b < 0x100 && d < 2
    ensures var v := a * 0x100_0000 + b * 0x1_0000 + d * 0x8000;
            v / 0x100_0000 == a && v / 0x1_0000 % 0x100 == b && v / 0x8000 % 2 == d
  {
    var v := a * 0x100_0000 + b * 0x1_0000 + d * 0x8000;
    assert v / 0x8000 == (a * 0x100 + b) * 2 + d;
    assert v / 0x1_0000 == a * 0x100 + b;
  }

  // ---------------------------------------------------------------------------------------------
  // Client subnet

  function CeilDiv8(n: nat): nat { (n + 7) / 8 }

  function EcsBytes(e: Ecs): seq<byte> {
    U16Bytes(e.family) + [e.source, e.scope] + e.address
  }

  /** The bits of the last address octet beyond the prefix are zero. */
  predicate TailClear(source: byte, address: seq<byte>) {
    var bits := source as int % 8;
    address == [] || bits == 0 || address[|address| - 1] as int % [256, 128, 64, 32, 16, 8, 4, 2][bits] == 0
  }

  function ParseEcs(data: seq<byte>): Result<Ecs> {
    if |data| < 4 then Err(Malformed)
    else
      var family, source, scope := U16Of(data[0], data[1]), data[2], data[3];
      if family != 1 && family != 2 then Err(Malformed)
      else
        var max: byte := if family == 1 then 32 else 128;
        if source > max || scope > max || |data| != 4 + CeilDiv8(source as int) || !TailClear(source, data[4..])
        then Err(Malformed)
        else Ok(Ecs(family, source, scope, data[4..]))
  }

  /** What the constructors build: a known family, prefixes in range, the address masked to the prefix. */
  predicate CanonicalEcs(e: Ecs) {
    && (e.family == 1 || e.family == 2)
    && (var max: byte := if e.family == 1 then 32 else 128; e.source <= max && e.scope <= max)
    && |e.address| == CeilDiv8(e.source as int)
    && TailClear(e.source, e.address)
  }

  /** Exactly the canonical subnets survive the wire. */
  lemma EcsRoundTrip(e: Ecs)
    ensures ParseEcs(EcsBytes(e)) == Ok(e) <==> CanonicalEcs(e)
  {
    var data := EcsBytes(e);
    assert data[4..] == e.address;
    assert U16Of(data[0], data[1]) == e.family && data[2] == e.source && data[3] == e.scope;
  }

  /** The weight below which an octet is cleared when only its first `bits` bits count. */
  function CutWeight(bits: nat): (w: nat)
    requires 0 < bits < 8
    ensures 0 < w <= 128
  {
    [256, 128, 64, 32, 16, 8, 4, 2][bits]
  }

  /** An octet without what is below weight `w`. */
  function Cleared(b: byte, w: nat): byte
    requires 0 < w
  {
    Cut(b as int, w) as byte
  }

  /** `mask`: the first `ceil(prefix / 8)` octets, padded with zeros, the bits beyond the prefix cleared. */
  function Masked(octets: seq<byte>, prefix: byte): (m: seq<byte>)
    ensures |m| == CeilDiv8(prefix as int)
  {
    var n := CeilDiv8(prefix as int);
    var m := seq(n, i requires 0 <= i < n => if i < |octets| then octets[i] else 0);
    if prefix as int % 8 == 0 then m
    else m[n - 1 := Cleared(m[n - 1], CutWeight(prefix as int % 8))]
  }

  /** `Ecs::ipv4` and `Ecs::ipv6`. */
  function NewEcs(ip: seq<byte>, prefix: byte): Result<Ecs>
    requires |ip| == 4 || |ip| == 16
  {
    if prefix as int > 8 * |ip| then Err(Malformed)
    else Ok(Ecs(if |ip| == 4 then 1 else 2, prefix, 0, Masked(ip, prefix)))
  }

  lemma ClearedRest(b: byte, w: nat)
    requires 0 < w
    ensures Cleared(b, w) as int % w == 0
  {
    var x := b as int;
    assert Cleared(b, w) as int == (x / w) * w + 0;
    DivMod(Cleared(b, w) as int, w, x / w, 0);
  }

  lemma CutWeightIs(bits: nat)
    requires 0 < bits < 8
    ensures CutWeight(bits) == Pow2(8 - bits)
  {
    assert Pow2(3) == 8;
    assert Pow2(5) == 32;
  }

  lemma InPrefix(prefix: nat, i: nat, j: nat)
    requires i < CeilDiv8(prefix) && j < 8
    ensures 8 * i + j < prefix <==> i < CeilDiv8(prefix) - 1 || prefix % 8 == 0 || j < prefix % 8
  {
  }

  /** Masking keeps the prefix of the address and nothing else: a bit is set in the result if and only if it
      stands before the end of the prefix and is set in the address. */
  lemma MaskKeepsPrefix(octets: seq<byte>, prefix: byte, i: nat, j: nat)
    requires i < |Masked(octets, prefix)| && j < 8
    ensures BitAt(Masked(octets, prefix)[i] as nat, 7 - j) <==>
            8 * i + j < prefix as int && i < |octets| && BitAt(octets[i] as nat, 7 - j)
  {
    hide CutWeight, BitAt, Pow2;
    var bits, m := prefix as int % 8, Masked(octets, prefix);
    var b: byte := if i < |octets| then octets[i] else 0;
    ZeroBit(7 - j);
    InPrefix(prefix as int, i, j);
    if bits != 0 && i == |m| - 1 {
      CutWeightIs(bits);
      CutBits(b as nat, 8 - bits, 7 - j);
    }
  }

  /** Every subnet a constructor builds is canonical, so it survives the wire. */
  lemma ConstructedIsCanonical(ip: seq<byte>, prefix: byte)
    requires |ip| == 4 || |ip| == 16
    ensures NewEcs(ip, prefix).Ok? <==> prefix as int <= 8 * |ip|
    ensures NewEcs(ip, prefix).Ok? ==>
              && CanonicalEcs(NewEcs(ip, prefix).value)
              && ParseEcs(EcsBytes(NewEcs(ip, prefix).value)) == NewEcs(ip, prefix)
  {
    if prefix as int <= 8 * |ip| {
      var e := NewEcs(ip, prefix).value;
      var bits := prefix as int % 8;
      if bits != 0 {
        var n := CeilDiv8(prefix as int);
        ClearedRest(ip[n - 1], CutWeight(bits));
      }
      EcsRoundTrip(e);
    }
  }

  /** `mask` as it runs: a zeroed buffer, copied into, its last octet trimmed. */
  method Mask(octets: seq<byte>, prefix: byte) returns (out: seq<byte>)
    ensures out == Masked(octets, prefix)
  {
    var n := CeilDiv8(prefix as int);
    out := seq(n, _ => 0);
    for i := 0 to if n < |octets| then n else |octets|
      invariant |out| == n
      invariant forall j :: 0 <= j < n ==> out[j] == if j < i then octets[j] else 0
    {
      out := out[i := octets[i]];
    }
    if prefix as int % 8 != 0 {
      out := out[n - 1 := Cleared(out[n - 1], CutWeight(prefix as int % 8))];
    }
  }

  // ---------------------------------------------------------------------------------------------
  // Options

  function TagBytes(t: uint16): seq<byte> { U16Bytes(t) }

  /** The option payload. Padding is written empty whatever its amount. */
  function Payload(o: EdnsOption): seq<byte> {
    match o
    case Subnet(e) => EcsBytes(e)
    case Cookie(client, server) => client + server
    case TcpKeepalive(None) => []
    case TcpKeepalive(Some(t)) => U16Bytes(t)
    case Padding(_) => []
    case KeyTag(tags) => FlatMap(TagBytes, tags, |tags|)
    case Nsid(id) => id
    case Ede(code, extra) => U16Bytes(code) + extra
    case Other(_, data) => data
  }

  /** The length field keeps the low 16 bits of the payload's length. */
  function OptionBytes(o: EdnsOption): seq<byte> {
    U16Bytes(Code(o)) + U16Bytes(|Payload(o)| % 0x1_0000) + Payload(o)
  }

  function OptionsWire(os: seq<EdnsOption>): seq<byte> {
    FlatMap(OptionBytes, os, |os|)
  }

  function ReadTag(buf: seq<byte>, pos: nat, end: nat): Result<(uint16, nat)> {
    if pos + 2 > end || pos + 2 > |buf| then Err(Malformed) else Ok((U16Of(buf[pos], buf[pos + 1]), pos + 2))
  }

  function ParsePayload(code: uint16, data: seq<byte>): Result<EdnsOption> {
    match code
    case 8 => (match ParseEcs(data) case Err(e) => Err(e) case Ok(e) => Ok(Subnet(e)))
    case 10 => if |data| < 8 then Err(Malformed) else Ok(Cookie(data[..8], data[8..]))
    case 11 =>
      if |data| == 0 then Ok(TcpKeepalive(None))
      else if |data| == 2 then Ok(TcpKeepalive(Some(U16Of(data[0], data[1]))))
      else Err(Malformed)
    case 12 => Ok(Padding(|data| % 0x1_0000))
    case 14 =>
      if |data| % 2 != 0 then Err(Malformed)
      else (match ReadItems(ReadTag, data, 0, |data|, []) case Err(e) => Err(e) case Ok(tags) => Ok(KeyTag(tags)))
    case 3 => Ok(Nsid(data))
    case 15 => if |data| < 2 then Err(Malformed) else Ok(Ede(U16Of(data[0], data[1]), data[2..]))
    case _ => Ok(Other(code, data))
  }

  /** One option of `parse_options`. */
  function ReadOption(buf: seq<byte>, pos: nat, end: nat): Result<(EdnsOption, nat)> {
    if pos + 4 > end || pos + 4 > |buf| then Err(Malformed)
    else
      var code, len := U16Of(buf[pos], buf[pos + 1]), U16Of(buf[pos + 2], buf[pos + 3]);
      if pos + 4 + len > end || pos + 4 + len > |buf| then Err(Malformed)
      else
        match ParsePayload(code, buf[pos + 4..pos + 4 + len])
        case Err(e) => Err(e)
        case Ok(o) => Ok((o, pos + 4 + len))
  }

  function ParseOptions(data: seq<byte>): Result<seq<EdnsOption>> {
    ReadItems(ReadOption, data, 0, |data|, [])
  }

  /** The options that survive the wire: a canonical subnet, an eight-octet client cookie, padding of
      zero (any other amount is lost), no known code hidden in `Other`, payloads of 65535 octets at most. */
  ghost predicate Faithful(o: EdnsOption) {
    && |Payload(o)| <= 0xffff
    && match o
       case Subnet(e) => CanonicalEcs(e)
       case Cookie(client, _) => |client| == 8
       case Padding(n) => n == 0
       case Other(code, _) => !KnownCode(code)
       case _ => true
  }

  lemma TagsRead(tags: seq<uint16>)
    ensures var data := FlatMap(TagBytes, tags, |tags|);
            |data| % 2 == 0 && ReadItems(ReadTag, data, 0, |data|, []) == Ok(tags)
  {
    var data := FlatMap(TagBytes, tags, |tags|);
    hide ReadTag, TagBytes, FlatMap, ReadItems, ReadsBack;
    forall i | 0 <= i < |tags| ensures ReadsBack(ReadTag, TagBytes, tags[i], tags[i]) {
      TagReadsBack(tags[i]);
    }
    EvenLength(tags, |tags|);
    ReadAll(ReadTag, TagBytes, tags, tags, data, data, 0, |data|);
  }

  lemma TagReadsBack(t: uint16)
    ensures ReadsBack(ReadTag, TagBytes, t, t)
  {
    forall buf, at: nat, end: nat | HoldsAt(buf, at, TagBytes(t)) && at + |TagBytes(t)| <= end <= |buf|
      ensures ReadTag(buf, at, end) == Ok((t, at + |TagBytes(t)|))
    {
      ReadsU16(buf, at, t);
    }
  }

  lemma {:induction false} EvenLength(tags: seq<uint16>, n: nat)
    requires n <= |tags|
    ensures |FlatMap(TagBytes, tags, n)| == 2 * n
  {
    if n > 0 {
      EvenLength(tags, n - 1);
    }
  }

  /** A payload reads back to its option exactly when the option is faithful. */
  lemma PayloadRoundTrip(o: EdnsOption)
    requires |Payload(o)| <= 0xffff
    ensures ParsePayload(Code(o), Payload(o)) == Ok(o) <==> Faithful(o)
  {
    hide EcsBytes, ParseEcs, CanonicalEcs, ReadItems, FlatMap;
    match o
    case Subnet(e) => EcsRoundTrip(e);
    case Cookie(client, server) =>
      if |client| == 8 {
        assert (client + server)[..8] == client && (client + server)[8..] == server;
      }
    case KeyTag(tags) => TagsRead(tags);
    case Ede(code, extra) => assert (U16Bytes(code) + extra)[2..] == extra;
    case _ =>
  }

  lemma HeadAndPayload(buf: seq<byte>, at: nat, code: uint16, data: seq<byte>)
    requires |data| <= 0xffff && HoldsAt(buf, at, U16Bytes(code) + U16Bytes(|data|) + data)
    ensures at + 4 + |data| <= |buf|
    ensures U16Of(buf[at], buf[at + 1]) == code && U16Of(buf[at + 2], buf[at + 3]) == |data|
    ensures buf[at + 4..at + 4 + |data|] == data
  {
    HoldsParts(buf, at, U16Bytes(code) + U16Bytes(|data|), data);
    HoldsParts(buf, at, U16Bytes(code), U16Bytes(|data|));
    ReadsU16(buf, at, code);
    ReadsU16(buf, at + 2, |data|);
  }

  lemma OptionAt(o: EdnsOption, code: uint16, data: seq<byte>, bytes: seq<byte>,
                 buf: seq<byte>, at: nat, end: nat)
    requires |data| <= 0xffff && ParsePayload(code, data) == Ok(o)
    requires bytes == U16Bytes(code) + U16Bytes(|data|) + data
    requires HoldsAt(buf, at, bytes) && at + |bytes| <= end <= |buf|
    ensures ReadOption(buf, at, end) == Ok((o, at + |bytes|))
  {
    HeadAndPayload(buf, at, code, data);
  }

  lemma FramedReadsBack(o: EdnsOption, code: uint16, data: seq<byte>, write: EdnsOption -> seq<byte>)
    requires |data| <= 0xffff && ParsePayload(code, data) == Ok(o)
    requires write(o) == U16Bytes(code) + U16Bytes(|data|) + data
    ensures ReadsBack(ReadOption, write, o, o)
  {
    forall buf, at: nat, end: nat | HoldsAt(buf, at, write(o)) && at + |write(o)| <= end <= |buf|
      ensures ReadOption(buf, at, end) == Ok((o, at + |write(o)|))
    {
      OptionAt(o, code, data, write(o), buf, at, end);
    }
  }

  lemma OptionReadsBack(o: EdnsOption)
    requires Faithful(o)
    ensures ReadsBack(ReadOption, OptionBytes, o, o)
  {
    PayloadRoundTrip(o);
    FramedReadsBack(o, Code(o), Payload(o), OptionBytes);
  }

  /** Every list of faithful options survives the wire. */
  lemma OptionsRoundTrip(os: seq<EdnsOption>)
    requires forall i :: 0 <= i < |os| ==> Faithful(os[i])
    ensures ParseOptions(OptionsWire(os)) == Ok(os)
  {
    hide ReadOption, OptionBytes, Faithful, FlatMap, ReadItems, ReadsBack;
    forall i | 0 <= i < |os| ensures ReadsBack(ReadOption, OptionBytes, os[i], os[i]) {
      OptionReadsBack(os[i]);
    }
    var data := OptionsWire(os);
    ReadAll(ReadOption, OptionBytes, os, os, data, data, 0, |data|);
  }
}
