/** The 16-bit flags word of a header (src/message.rs). */
module HeaderFlags {
  import opened Octets
  import opened Powers

  datatype Flags = Flags(qr: bool, opcode: byte, aa: bool, tc: bool, rd: bool, ra: bool, ad: bool, cd: bool,
                         rcode: byte)

  function B(b: bool): nat {
    if b then 1 else 0
  }

  /** `HeaderFlags::to_u16`: only the low four bits of opcode and rcode are kept. */
  function FlagsWord(f: Flags): uint16 {
    B(f.qr) * 0x8000 + f.opcode as int % 16 * 0x800 + B(f.aa) * 0x400 + B(f.tc) * 0x200
    + B(f.rd) * 0x100 + B(f.ra) * 0x80 + B(f.ad) * 0x20 + B(f.cd) * 0x10 + f.rcode as int % 16
  }

  /** `v >> k`. */
  function Shr(v: nat, k: nat): nat {
    if k == 0 then v else Shr(v, k - 1) / 2
  }

  /** Shifting drops the low digits. */
  lemma {:induction false} ShrIs(v: nat, k: nat, hi: nat, lo: nat)
    requires v == hi * Pow2(k) + lo && lo < Pow2(k)
    ensures Shr(v, k) == hi
  {
    if k > 0 {
      var p := Pow2(k - 1);
      assert hi * (2 * p) == (2 * hi) * p;
      hide Pow2;
      if lo < p {
        assert v == (2 * hi) * p + lo;
        ShrIs(v, k - 1, 2 * hi, lo);
      } else {
        assert v == (2 * hi + 1) * p + (lo - p);
        ShrIs(v, k - 1, 2 * hi + 1, lo - p);
      }
    }
  }

  /** `HeaderFlags::from_u16`. */
  function ToFlags(v: uint16): Flags {
    Flags(Shr(v, 15) % 2 == 1, (Shr(v, 11) % 16) as byte, Shr(v, 10) % 2 == 1, Shr(v, 9) % 2 == 1,
          Shr(v, 8) % 2 == 1, Shr(v, 7) % 2 == 1, Shr(v, 5) % 2 == 1, Shr(v, 4) % 2 == 1, (v % 16) as byte)
  }

  lemma FlagWeights()
    ensures Pow2(4) == 0x10 && Pow2(5) == 0x20 && Pow2(6) == 0x40 && Pow2(7) == 0x80 && Pow2(8) == 0x100
    ensures Pow2(9) == 0x200 && Pow2(10) == 0x400 && Pow2(11) == 0x800 && Pow2(15) == 0x8000
  {
    assert Pow2(2) == 4;
    assert Pow2(4) == 0x10;
    assert Pow2(6) == 0x40;
    assert Pow2(8) == 0x100;
    assert Pow2(10) == 0x400;
    assert Pow2(12) == 0x1000;
    assert Pow2(14) == 0x4000;
  }

  ghost predicate Bit(b: int) { 0 <= b < 2 }

  /** The digits of a flags word. */
  lemma DigitsOf(v: nat, q: int, o: int, a: int, t: int, r: int, n: int, z: int, d: int, c: int, x: int)
    requires Bit(q) && 0 <= o < 16 && Bit(a) && Bit(t) && Bit(r) && Bit(n) && Bit(z) && Bit(d) && Bit(c) && 0 <= x < 16
    requires v == q * 0x8000 + o * 0x800 + a * 0x400 + t * 0x200 + r * 0x100 + n * 0x80 + z * 0x40 + d * 0x20
                  + c * 0x10 + x
    ensures Shr(v, 15) % 2 == q && Shr(v, 11) % 16 == o && Shr(v, 10) % 2 == a && Shr(v, 9) % 2 == t
    ensures Shr(v, 8) % 2 == r && Shr(v, 7) % 2 == n && Shr(v, 6) % 2 == z && Shr(v, 5) % 2 == d
    ensures Shr(v, 4) % 2 == c && v % 16 == x
  {
    FlagWeights();
    var h1 := q * 16 + o;
    var h2 := h1 * 2 + a;
    var h3 := h2 * 2 + t;
    var h4 := h3 * 2 + r;
    var h5 := h4 * 2 + n;
    var h6 := h5 * 2 + z;
    var h7 := h6 * 2 + d;
    var h8 := h7 * 2 + c;
    Digit(v, 4, 0x10, 2, h8, h7, c);
    Digit(v, 5, 0x20, 2, h7, h6, d);
    Digit(v, 6, 0x40, 2, h6, h5, z);
    Digit(v, 7, 0x80, 2, h5, h4, n);
    Digit(v, 8, 0x100, 2, h4, h3, r);
    Digit(v, 9, 0x200, 2, h3, h2, t);
    Digit(v, 10, 0x400, 2, h2, h1, a);
    Digit(v, 11, 0x800, 16, h1, q, o);
    Digit(v, 15, 0x8000, 2, q, 0, q);
    DivMod(v, 16, h8, x);
  }

  lemma Digit(v: nat, k: nat, w: int, base: int, hi: int, next: int, digit: int)
    requires w == Pow2(k) && 0 <= hi && 0 <= v - hi * w < w && hi == next * base + digit && 0 <= digit < base
    ensures Shr(v, k) % base == digit
  {
    ShrIs(v, k, hi, v - hi * w);
    DivMod(hi, base, next, digit);
  }

  lemma FlagsAre(v: uint16, f: Flags)
    requires f.opcode < 16 && f.rcode < 16
    requires Shr(v, 15) % 2 == B(f.qr) && Shr(v, 11) % 16 == f.opcode as int && Shr(v, 10) % 2 == B(f.aa)
    requires Shr(v, 9) % 2 == B(f.tc) && Shr(v, 8) % 2 == B(f.rd) && Shr(v, 7) % 2 == B(f.ra)
    requires Shr(v, 5) % 2 == B(f.ad) && Shr(v, 4) % 2 == B(f.cd) && v % 16 == f.rcode as int
    ensures ToFlags(v) == f
  {
  }

  /** The flags word of `f`, when opcode and rcode fit their four bits. */
  function Weighted(f: Flags): nat {
    B(f.qr) * 0x8000 + f.opcode as int * 0x800 + B(f.aa) * 0x400 + B(f.tc) * 0x200
    + B(f.rd) * 0x100 + B(f.ra) * 0x80 + B(f.ad) * 0x20 + B(f.cd) * 0x10 + f.rcode as int
  }

  lemma FromDigits(v: uint16, f: Flags, z: nat)
    requires f.opcode < 16 && f.rcode < 16 && Bit(z) && v == Weighted(f) + z * 0x40
    ensures ToFlags(v) == f && Shr(v, 6) % 2 == z
  {
    DigitsOf(v, B(f.qr), f.opcode as int, B(f.aa), B(f.tc), B(f.rd), B(f.ra), z, B(f.ad), B(f.cd), f.rcode as int);
    FlagsAre(v, f);
  }

  function Low4(b: byte): byte { b % 16 }

  /** The flags survive the wire exactly when opcode and rcode fit their four bits. */
  lemma FlagsRoundTrip(f: Flags)
    ensures ToFlags(FlagsWord(f)) == f <==> f.opcode < 16 && f.rcode < 16
  {
    hide ToFlags, Pow2;
    FromDigits(FlagsWord(f), f.(opcode := Low4(f.opcode), rcode := Low4(f.rcode)), 0);
  }

  lemma Halve(v: nat) returns (h: nat, d: bool)
    ensures v == h * 2 + B(d)
  {
    h, d := v / 2, v % 2 == 1;
  }

  lemma Nibble(v: nat) returns (h: nat, d: byte)
    ensures v == h * 16 + d as int && d < 16
  {
    h, d := v / 16, (v % 16) as byte;
  }

  lemma LowBits(f: Flags)
    requires f.opcode < 16 && f.rcode < 16
    ensures FlagsWord(f) == Weighted(f)
  {
  }

  lemma LowPart(v: nat) returns (h: nat, z: bool, ad: bool, cd: bool, rcode: byte)
    ensures v == h * 0x80 + B(z) * 0x40 + B(ad) * 0x20 + B(cd) * 0x10 + rcode as int && rcode < 16
  {
    var h8, h7, h6;
    h8, rcode := Nibble(v);
    h7, cd := Halve(h8);
    h6, ad := Halve(h7);
    h, z := Halve(h6);
  }

  lemma HighPart(h: nat) returns (q: nat, opcode: byte, aa: bool, tc: bool, rd: bool, ra: bool)
    ensures h == q * 0x100 + opcode as int * 0x10 + B(aa) * 8 + B(tc) * 4 + B(rd) * 2 + B(ra) && opcode < 16
  {
    var h4, h3, h2, h1;
    h4, ra := Halve(h);
    h3, rd := Halve(h4);
    h2, tc := Halve(h3);
    h1, aa := Halve(h2);
    q, opcode := Nibble(h1);
  }

  /** Every word is the weighted sum of its flags and its reserved bit. */
  lemma Decompose(v: uint16) returns (f: Flags, z: bool)
    ensures f.opcode < 16 && f.rcode < 16 && v == Weighted(f) + B(z) * 0x40
  {
    var h, reserved, ad, cd, rcode := LowPart(v);
    var q, opcode, aa, tc, rd, ra := HighPart(h);
    f, z := Flags(q == 1, opcode, aa, tc, rd, ra, ad, cd, rcode), reserved;
  }

  /** Every word survives except its reserved bit 6, which is cleared. */
  lemma WordRoundTrip(v: uint16)
    ensures FlagsWord(ToFlags(v)) == v - (Shr(v, 6) % 2) * 0x40
  {
    var f, z := Decompose(v);
    FromDigits(v, f, B(z));
    LowBits(f);
  }
}
