/** The NSEC/NSEC3 type bitmap (section 4.1.2 of RFC 4034), written and parsed as in src/rdata.rs. */
module TypeBitmap {
  import opened Octets
  import opened Powers

  // ---------------------------------------------------------------------------------------------
  // Bits

  /** Adding a clear bit changes that bit alone. */
  lemma {:induction false} AddBit(b: nat, i: nat, j: nat)
    requires !BitAt(b, i)
    ensures BitAt(b + Pow2(i), j) <==> i == j || BitAt(b, j)
    decreases i
  {
    if i > 0 {
      assert (b + Pow2(i)) / 2 == b / 2 + Pow2(i - 1);
      if j > 0 {
        AddBit(b / 2, i - 1, j - 1);
      }
    }
  }

  lemma {:induction false} AddBitBound(b: nat, i: nat, n: nat)
    requires !BitAt(b, i) && b < Pow2(n) && i < n
    ensures b + Pow2(i) < Pow2(n)
    decreases i
  {
    assert Pow2(n) == 2 * Pow2(n - 1);
    if i > 0 {
      assert Pow2(i) == 2 * Pow2(i - 1);
      hide Pow2;
      AddBitBound(b / 2, i - 1, n - 1);
    }
  }

  /** `byte & (0x80 >> i) != 0`. */
  predicate Has(b: byte, i: nat)
    requires i < 8
  {
    BitAt(b as nat, 7 - i)
  }

  lemma NoCarry(b: byte, i: nat)
    requires i < 8 && !Has(b, i)
    ensures b as nat + Pow2(7 - i) < 0x100
  {
    assert Pow2(4) == 16;
    assert Pow2(8) == 0x100;
    AddBitBound(b as nat, 7 - i, 8);
  }

  /** `byte | (0x80 >> i)`. */
  function SetBit(b: byte, i: nat): byte
    requires i < 8
  {
    if Has(b, i) then b else NoCarry(b, i); (b as nat + Pow2(7 - i)) as byte
  }

  lemma SetBitSets(b: byte, i: nat)
    requires i < 8
    ensures forall j: nat :: j < 8 ==> (Has(SetBit(b, i), j) <==> i == j || Has(b, j))
  {
    if !Has(b, i) {
      NoCarry(b, i);
      forall j: nat | j < 8 ensures Has(SetBit(b, i), j) <==> i == j || Has(b, j) {
        AddBit(b as nat, 7 - i, 7 - j);
      }
    }
  }

  // ---------------------------------------------------------------------------------------------
  // Parsing

  type Type = uint16

  function TypeAt(window: byte, i: nat, bit: nat): Type
    requires i < 32 && bit < 8
  {
    window as int * 0x100 + i * 8 + bit
  }

  /** `done`, and then the types of the first `bits` bits of octet `i` of a window. */
  function PushOctet(window: byte, i: nat, b: byte, bits: nat, done: seq<Type>): seq<Type>
    requires i < 32 && bits <= 8
  {
    if bits == 0 then done
    else
      var front := PushOctet(window, i, b, bits - 1, done);
      if Has(b, bits - 1) then front + [TypeAt(window, i, bits - 1)] else front
  }

  /** `done`, and then the types of the `n` octets of a window that start at `base`. */
  function PushWindow(window: byte, bytes: seq<byte>, base: nat, n: nat, done: seq<Type>): seq<Type>
    requires base + n <= |bytes| && n <= 32
  {
    if n == 0 then done
    else PushOctet(window, n - 1, bytes[base + n - 1], 8, PushWindow(window, bytes, base, n - 1, done))
  }

  /** `parse_type_bitmap` on the octets `data[pos..]`, with the types `done` already read. */
  function ParseBitmap(data: seq<byte>, pos: nat, done: seq<Type>): Result<seq<Type>>
    requires pos <= |data|
    decreases |data| - pos
  {
    if pos == |data| then Ok(done)
    else if pos + 2 > |data| then Err(Malformed)
    else
      var len := data[pos + 1] as int;
      if len == 0 || len > 32 || pos + 2 + len > |data| then Err(Malformed)
      else ParseBitmap(data, pos + 2 + len, PushWindow(data[pos], data, pos + 2, len, done))
  }

  // ---------------------------------------------------------------------------------------------
  // Writing

  predicate Ascending(s: seq<Type>) {
    forall i, j :: 0 <= i < j < |s| ==> s[i] < s[j]
  }

  function Insert(s: seq<Type>, t: Type): seq<Type> {
    if s == [] || t < s[0] then [t] + s
    else if t == s[0] then s
    else [s[0]] + Insert(s[1..], t)
  }

  /** `sort_unstable` followed by `dedup`. */
  function SortDedup(types: seq<Type>): seq<Type> {
    if types == [] then [] else Insert(SortDedup(types[1..]), types[0])
  }

  lemma InFront(t: Type, s: seq<Type>)
    ensures forall x :: x in [t] + s <==> x == t || x in s
    ensures Ascending(s) && (forall x :: x in s ==> t < x) ==> Ascending([t] + s)
  {
    if Ascending(s) && forall x :: x in s ==> t < x {
      forall i, j | 0 <= i < j < |[t] + s| ensures ([t] + s)[i] < ([t] + s)[j] {
        assert ([t] + s)[j] == s[j - 1] && s[j - 1] in s;
      }
    }
  }

  lemma {:induction false} InsertSorts(s: seq<Type>, t: Type)
    requires Ascending(s)
    ensures Ascending(Insert(s, t))
    ensures forall x :: x in Insert(s, t) <==> x == t || x in s
  {
    if s == [] || t < s[0] {
      InFront(t, s);
    } else {
      InFront(s[0], s[1..]);
      assert s == [s[0]] + s[1..];
      if t > s[0] {
        InsertSorts(s[1..], t);
        InFront(s[0], Insert(s[1..], t));
      }
    }
  }

  /** The written list is the ascending, duplicate-free list of the given types. */
  lemma {:induction false} SortDedupSorts(types: seq<Type>)
    ensures Ascending(SortDedup(types))
    ensures forall x :: x in SortDedup(types) <==> x in types
  {
    if types != [] {
      SortDedupSorts(types[1..]);
      InsertSorts(SortDedup(types[1..]), types[0]);
      assert forall x :: x in types <==> x == types[0] || x in types[1..];
    }
  }

  lemma {:induction false} SortDedupId(s: seq<Type>)
    requires Ascending(s)
    ensures SortDedup(s) == s
  {
    if s != [] {
      SortDedupId(s[1..]);
      assert s == [s[0]] + s[1..];
    }
  }

  type Octets32 = b: seq<byte> | |b| == 32 witness Zeros(32)

  type Used = k: nat | k <= 32

  /** A window under construction: its number, its bits, and how many octets of them are used. */
  datatype Window = Window(number: byte, bytes: Octets32, used: Used)

  function Zeros(n: nat): (z: seq<byte>)
    ensures |z| == n && forall i :: 0 <= i < n ==> z[i] == 0
  {
    if n == 0 then [] else Zeros(n - 1) + [0]
  }

  function WindowOf(t: Type): byte { (t / 0x100) as byte }

  function IndexOf(t: Type): (i: nat)
    ensures i < 32
  {
    t % 0x100 / 8
  }

  function BitOf(t: Type): (i: nat)
    ensures i < 8
  {
    t % 8
  }

  function Mark(w: Window, t: Type): Window {
    Window(w.number, w.bytes[IndexOf(t) := SetBit(w.bytes[IndexOf(t)], BitOf(t))],
           if w.used > IndexOf(t) + 1 then w.used else IndexOf(t) + 1)
  }

  /** The index of the first window numbered `w`, or the number of windows. */
  function Find(ws: seq<Window>, w: byte): (i: nat)
    ensures i <= |ws| && (i < |ws| ==> ws[i].number == w)
    ensures forall j :: 0 <= j < i ==> ws[j].number != w
  {
    if ws == [] || ws[0].number == w then 0 else 1 + Find(ws[1..], w)
  }

  function AddType(ws: seq<Window>, t: Type): seq<Window> {
    var i := Find(ws, WindowOf(t));
    if i < |ws| then ws[i := Mark(ws[i], t)] else ws + [Mark(Window(WindowOf(t), Zeros(32), 0), t)]
  }

  /** The windows after the first `n` types of `s`. */
  function Windows(s: seq<Type>, n: nat): seq<Window>
    requires n <= |s|
  {
    if n == 0 then [] else AddType(Windows(s, n - 1), s[n - 1])
  }

  function WindowBytes(w: Window): seq<byte> {
    [w.number, w.used as byte] + w.bytes[..w.used]
  }

  /** `done`, and then the types of the first `n` windows. */
  function TypesIn(ws: seq<Window>, n: nat): seq<Type>
    requires n <= |ws|
  {
    if n == 0 then [] else PushWindow(ws[n - 1].number, ws[n - 1].bytes, 0, ws[n - 1].used, TypesIn(ws, n - 1))
  }

  /** No bit of `w` stands after the one of `t`, and exactly the octets up to it are used. */
  ghost predicate Topped(w: Window, t: Type) {
    && w.number == WindowOf(t)
    && w.used == IndexOf(t) + 1
    && (forall i :: IndexOf(t) < i < 32 ==> w.bytes[i] == 0)
    && (forall j: nat :: BitOf(t) < j < 8 ==> !Has(w.bytes[IndexOf(t)], j))
  }

  lemma ZeroHasNone(b: byte)
    requires b == 0
    ensures forall j: nat :: j < 8 ==> !Has(b, j)
  {
    forall k: nat ensures !BitAt(0, k) {
      ZeroBit(k);
    }
  }

  lemma {:induction false} ClearBits(window: byte, i: nat, b: byte, k: nat, bits: nat, done: seq<Type>)
    requires i < 32 && k <= bits <= 8 && (forall j: nat :: k <= j < 8 ==> !Has(b, j))
    ensures PushOctet(window, i, b, bits, done) == PushOctet(window, i, b, k, done)
  {
    if k < bits {
      ClearBits(window, i, b, k, bits - 1, done);
    }
  }

  lemma {:induction false} SameBits(window: byte, i: nat, a: byte, b: byte, bits: nat, done: seq<Type>)
    requires i < 32 && bits <= 8 && (forall j: nat :: j < bits ==> (Has(a, j) <==> Has(b, j)))
    ensures PushOctet(window, i, a, bits, done) == PushOctet(window, i, b, bits, done)
  {
    if bits > 0 {
      SameBits(window, i, a, b, bits - 1, done);
    }
  }

  /** Setting a bit after all others of an octet appends its type. */
  lemma OctetAppends(window: byte, i: nat, b: byte, top: nat, done: seq<Type>)
    requires i < 32 && top < 8 && (forall j: nat :: top <= j < 8 ==> !Has(b, j))
    ensures PushOctet(window, i, SetBit(b, top), 8, done)
            == PushOctet(window, i, b, 8, done) + [TypeAt(window, i, top)]
  {
    SetBitSets(b, top);
    SameBits(window, i, SetBit(b, top), b, top, done);
    ClearBits(window, i, b, top, 8, done);
    ClearBits(window, i, SetBit(b, top), top + 1, 8, done);
  }

  /** Octets that are clear at the end of a window carry no types. */
  lemma {:induction false} ZeroTail(window: byte, bytes: seq<byte>, used: nat, n: nat, done: seq<Type>)
    requires used <= n <= |bytes| && n <= 32 && (forall k :: used <= k < n ==> bytes[k] == 0)
    ensures PushWindow(window, bytes, 0, n, done) == PushWindow(window, bytes, 0, used, done)
  {
    if used < n {
      ZeroHasNone(bytes[n - 1]);
      ClearBits(window, n - 1, bytes[n - 1], 0, 8, PushWindow(window, bytes, 0, n - 1, done));
      ZeroTail(window, bytes, used, n - 1, done);
    }
  }

  /** Octets from `k` on do not matter to the types before them. */
  lemma {:induction false} PrefixKept(window: byte, bytes: seq<byte>, k: nat, b: byte, n: nat, done: seq<Type>)
    requires n <= k < |bytes| && n <= 32
    ensures PushWindow(window, bytes[k := b], 0, n, done) == PushWindow(window, bytes, 0, n, done)
  {
    if n > 0 {
      PrefixKept(window, bytes, k, b, n - 1, done);
    }
  }

  /** Nothing in `w` stands at or after the place of `t`. */
  ghost predicate Below(w: Window, t: Type) {
    && w.number == WindowOf(t) && w.used <= IndexOf(t) + 1
    && (forall i :: w.used <= i < 32 ==> w.bytes[i] == 0)
    && (forall j: nat :: BitOf(t) <= j < 8 ==> !Has(w.bytes[IndexOf(t)], j))
  }

  lemma PlaceOf(t: Type)
    ensures t == TypeAt(WindowOf(t), IndexOf(t), BitOf(t))
  {
  }

  lemma ToppedIsBelow(w: Window, prev: Type, t: Type)
    requires Topped(w, prev) && prev < t && WindowOf(prev) == WindowOf(t)
    ensures Below(w, t)
  {
    PlaceOf(prev);
    PlaceOf(t);
    if IndexOf(prev) < IndexOf(t) {
      ZeroHasNone(w.bytes[IndexOf(t)]);
    }
  }

  lemma MarkTops(w: Window, t: Type)
    requires Below(w, t)
    ensures Topped(Mark(w, t), t) && Full(Mark(w, t))
  {
    SetBitSets(w.bytes[IndexOf(t)], BitOf(t));
    if SetBit(w.bytes[IndexOf(t)], BitOf(t)) == 0 {
      ZeroHasNone(SetBit(w.bytes[IndexOf(t)], BitOf(t)));
      assert false;
    }
  }

  /** Marking a type beyond every other one of its window appends it. */
  lemma {:induction false} MarkAppends(w: Window, t: Type, done: seq<Type>)
    requires Below(w, t)
    ensures PushWindow(w.number, Mark(w, t).bytes, 0, Mark(w, t).used, done)
            == PushWindow(w.number, w.bytes, 0, w.used, done) + [t]
  {
    var k, n := IndexOf(t), w.number;
    PlaceOf(t);
    PrefixKept(n, w.bytes, k, SetBit(w.bytes[k], BitOf(t)), k, done);
    OctetAppends(n, k, w.bytes[k], BitOf(t), PushWindow(n, w.bytes, 0, k, done));
    ZeroTail(n, w.bytes, w.used, k + 1, done);
  }

  /** The last octet used is not zero. */
  predicate Full(w: Window) {
    w.used > 0 && w.bytes[w.used - 1] != 0
  }

  /** Windows ascend, each uses 1 to 32 octets, and the last one ends exactly with the type `last`. */
  ghost predicate Shaped(ws: seq<Window>, last: Type) {
    && ws != [] && (forall i :: 0 <= i < |ws| ==> Full(ws[i]))
    && (forall i, j :: 0 <= i < j < |ws| ==> ws[i].number < ws[j].number)
    && Topped(ws[|ws| - 1], last)
  }

  /** What the windows look like after the first `n` of the ascending types `s`. */
  ghost predicate Built(ws: seq<Window>, s: seq<Type>, n: nat)
    requires n <= |s|
  {
    && (if n == 0 then ws == [] else Shaped(ws, s[n - 1]))
    && TypesIn(ws, |ws|) == s[..n]
  }

  lemma {:induction false} SameWindows(a: seq<Window>, b: seq<Window>, n: nat)
    requires n <= |a| && n <= |b| && (forall i :: 0 <= i < n ==> a[i] == b[i])
    ensures TypesIn(a, n) == TypesIn(b, n)
  {
    if n > 0 {
      SameWindows(a, b, n - 1);
    }
  }

  lemma ReplaceShaped(ws: seq<Window>, last: Type, w: Window, t: Type)
    requires Shaped(ws, last) && Topped(w, t) && Full(w) && w.number == ws[|ws| - 1].number
    ensures Shaped(ws[|ws| - 1 := w], t)
  {
  }

  lemma PushShaped(ws: seq<Window>, last: Type, w: Window, t: Type)
    requires ws != [] ==> Shaped(ws, last) && ws[|ws| - 1].number < w.number
    requires Topped(w, t) && Full(w)
    ensures Shaped(ws + [w], t)
  {
  }

  lemma ReplaceLast(ws: seq<Window>, w: Window, s: seq<Type>, n: nat)
    requires 0 < n < |s| && Built(ws, s, n) && Topped(w, s[n]) && Full(w)
    requires w.number == ws[|ws| - 1].number
    requires var done := TypesIn(ws, |ws| - 1);
             PushWindow(w.number, w.bytes, 0, w.used, done) == TypesIn(ws, |ws|) + [s[n]]
    ensures Built(ws[|ws| - 1 := w], s, n + 1)
  {
    var k := |ws| - 1;
    ReplaceShaped(ws, s[n - 1], w, s[n]);
    SameWindows(ws, ws[k := w], k);
    TakeSnoc(s, n);
  }

  lemma AppendWindow(ws: seq<Window>, w: Window, s: seq<Type>, n: nat)
    requires n < |s| && Built(ws, s, n) && Topped(w, s[n]) && Full(w)
    requires n > 0 ==> ws[|ws| - 1].number < w.number
    requires var done := TypesIn(ws, |ws|); PushWindow(w.number, w.bytes, 0, w.used, done) == done + [s[n]]
    ensures Built(ws + [w], s, n + 1)
  {
    PushShaped(ws, if n > 0 then s[n - 1] else 0, w, s[n]);
    SameWindows(ws, ws + [w], |ws|);
    TakeSnoc(s, n);
  }

  lemma AddTypeBuilds(ws: seq<Window>, s: seq<Type>, n: nat)
    requires n < |s| && Built(ws, s, n) && (n > 0 ==> s[n - 1] < s[n])
    ensures Built(AddType(ws, s[n]), s, n + 1)
  {
    var t, k := s[n], |ws| - 1;
    var i := Find(ws, WindowOf(t));
    if i < |ws| {
      assert i == k;
      ToppedIsBelow(ws[k], s[n - 1], t);
      MarkTops(ws[k], t);
      MarkAppends(ws[k], t, TypesIn(ws, k));
      ReplaceLast(ws, Mark(ws[k], t), s, n);
    } else {
      var w := Window(WindowOf(t), Zeros(32), 0);
      ZeroHasNone(w.bytes[IndexOf(t)]);
      MarkTops(w, t);
      MarkAppends(w, t, TypesIn(ws, |ws|));
      AppendWindow(ws, Mark(w, t), s, n);
    }
  }

  lemma {:induction false} WindowsBuilt(s: seq<Type>, n: nat)
    requires Ascending(s) && n <= |s|
    ensures Built(Windows(s, n), s, n)
  {
    if n > 0 {
      WindowsBuilt(s, n - 1);
      var ws := Windows(s, n - 1);
      AddTypeBuilds(ws, s, n - 1);
      assert Windows(s, n) == AddType(ws, s[n - 1]);
    }
  }

  // ---------------------------------------------------------------------------------------------
  // Round trip

  /** What `write_type_bitmap` appends. */
  function BitmapBytes(types: seq<Type>): seq<byte> {
    var s := SortDedup(types);
    var ws := Windows(s, |s|);
    FlatMap(WindowBytes, ws, |ws|)
  }

  lemma {:induction false} HeldTypes(window: byte, data: seq<byte>, base: nat, bytes: seq<byte>, n: nat,
                                     done: seq<Type>)
    requires n <= |bytes| && n <= 32 && HoldsAt(data, base, bytes[..n])
    ensures PushWindow(window, data, base, n, done) == PushWindow(window, bytes, 0, n, done)
  {
    if n > 0 {
      TakeSnoc(bytes, n - 1);
      HoldsParts(data, base, bytes[..n - 1], [bytes[n - 1]]);
      assert data[base + n - 1..base + n][0] == bytes[n - 1];
      HeldTypes(window, data, base, bytes, n - 1, done);
    }
  }

  /** What stands in the flattened windows where window `k` starts. */
  lemma WindowPart(ws: seq<Window>, data: seq<byte>, k: nat)
    requires k < |ws| && data == FlatMap(WindowBytes, ws, |ws|)
    ensures var w, pos := ws[k], |FlatMap(WindowBytes, ws, k)|;
            && |FlatMap(WindowBytes, ws, k + 1)| == pos + 2 + w.used <= |data|
            && data[pos] == w.number && data[pos + 1] == w.used as byte
            && HoldsAt(data, pos + 2, w.bytes[..w.used])
  {
    var w, pos := ws[k], |FlatMap(WindowBytes, ws, k)|;
    FlatMapPart(WindowBytes, ws, k, data);
    HoldsParts(data, pos, [w.number, w.used as byte], w.bytes[..w.used]);
    HoldsTwo(data, pos, w.number, w.used as byte);
  }

  lemma ParseOne(data: seq<byte>, pos: nat, w: Window, done: seq<Type>)
    requires w.used > 0 && pos + 2 + w.used <= |data|
    requires data[pos] == w.number && data[pos + 1] == w.used as byte
    requires HoldsAt(data, pos + 2, w.bytes[..w.used])
    ensures ParseBitmap(data, pos, done)
            == ParseBitmap(data, pos + 2 + w.used, PushWindow(w.number, w.bytes, 0, w.used, done))
  {
    HeldTypes(w.number, data, pos + 2, w.bytes, w.used, done);
  }

  /** Parsing written windows one by one consumes exactly their octets and yields exactly their types. */
  lemma {:induction false} ParseWindows(ws: seq<Window>, data: seq<byte>, k: nat, pos: nat, done: seq<Type>)
    requires k <= |ws| && (forall i :: 0 <= i < |ws| ==> Full(ws[i]))
    requires data == FlatMap(WindowBytes, ws, |ws|) && pos <= |data|
    requires pos == |FlatMap(WindowBytes, ws, k)| && done == TypesIn(ws, k)
    ensures ParseBitmap(data, pos, done) == Ok(TypesIn(ws, |ws|))
    decreases |ws| - k
  {
    hide FlatMap, WindowBytes, PushWindow;
    if k < |ws| {
      hide ParseBitmap;
      var pos', done' := pos + 2 + ws[k].used, TypesIn(ws, k + 1);
      assert pos' == |FlatMap(WindowBytes, ws, k + 1)| <= |data|
             && ParseBitmap(data, pos, done) == ParseBitmap(data, pos', done') by {
        WindowPart(ws, data, k);
        ParseOne(data, pos, ws[k], done);
      }
      ParseWindows(ws, data, k + 1, pos', done');
    } else {
      assert ParseBitmap(data, |data|, done) == Ok(done);
    }
  }

  /** For every list of types, parsing the written bitmap yields the ascending duplicate-free list of
      the same types, and consumes exactly the written octets. */
  lemma BitmapRoundTrip(types: seq<Type>)
    ensures ParseBitmap(BitmapBytes(types), 0, []) == Ok(SortDedup(types))
  {
    var s := SortDedup(types);
    SortDedupSorts(types);
    WindowsBuilt(s, |s|);
    TakeAll(s);
    ParseWindows(Windows(s, |s|), BitmapBytes(types), 0, 0, []);
  }

  /** The written windows ascend, each number once, with 1 to 32 octets of which the last is not zero
      (section 4.1.2 of RFC 4034). */
  lemma BitmapWindows(types: seq<Type>)
    ensures var ws := Windows(SortDedup(types), |SortDedup(types)|);
            && (forall i :: 0 <= i < |ws| ==> 1 <= ws[i].used <= 32 && ws[i].bytes[ws[i].used - 1] != 0)
            && (forall i, j :: 0 <= i < j < |ws| ==> ws[i].number < ws[j].number)
  {
    var s := SortDedup(types);
    SortDedupSorts(types);
    WindowsBuilt(s, |s|);
    ShapedWindows(Windows(s, |s|), if |s| > 0 then s[|s| - 1] else 0);
  }

  lemma ShapedWindows(ws: seq<Window>, last: Type)
    requires ws == [] || Shaped(ws, last)
    ensures forall i :: 0 <= i < |ws| ==> 1 <= ws[i].used <= 32 && ws[i].bytes[ws[i].used - 1] != 0
    ensures forall i, j :: 0 <= i < j < |ws| ==> ws[i].number < ws[j].number
  {
  }

  // ---------------------------------------------------------------------------------------------
  // The loops of the program

  /** The window of number `w` among `windows`, their number if there is none. */
  method FindWindow(windows: seq<Window>, w: byte) returns (i: nat)
    ensures i == Find(windows, w)
  {
    i := 0;
    while i < |windows| && windows[i].number != w
      invariant i <= Find(windows, w)
    {
      i := i + 1;
    }
  }

  /** The windows of a sorted list of types, each found or added in turn and marked. */
  method FillWindows(sorted: seq<Type>) returns (windows: seq<Window>)
    ensures windows == Windows(sorted, |sorted|)
  {
    hide Mark, Zeros, Find, WindowOf;
    windows := [];
    for n := 0 to |sorted|
      invariant windows == Windows(sorted, n)
    {
      var t := sorted[n];
      var i := FindWindow(windows, WindowOf(t));
      if i < |windows| {
        windows := windows[i := Mark(windows[i], t)];
      } else {
        windows := windows + [Mark(Window(WindowOf(t), Zeros(32), 0), t)];
      }
    }
  }

  /** `write_type_bitmap`: marks each type in its window, updated in place, then writes the windows. */
  method WriteBitmap(out: Buffer, types: seq<Type>)
    modifies out
    ensures out.data == old(out.data) + BitmapBytes(types)
  {
    if types == [] {
      return;
    }
    hide Windows;
    var windows := FillWindows(SortDedup(types));
    for n := 0 to |windows|
      invariant out.data == old(out.data) + FlatMap(WindowBytes, windows, n)
    {
      Associative(old(out.data), FlatMap(WindowBytes, windows, n), WindowBytes(windows[n]));
      out.Extend(WindowBytes(windows[n]));
    }
  }

  /** `parse_type_bitmap` over the octets `buf[pos..end]`. */
  method ReadBitmap(buf: seq<byte>, pos: nat, end: nat) returns (r: Result<seq<Type>>)
    requires pos <= end <= |buf|
    ensures r == ParseBitmap(buf[..end], pos, [])
  {
    ghost var data := buf[..end];
    var types: seq<Type>, p := [], pos;
    while p < end
      invariant pos <= p <= end
      invariant ParseBitmap(data, pos, []) == ParseBitmap(data, p, types)
    {
      if p + 2 > end {
        return Err(Malformed);
      }
      var window, len := buf[p], buf[p + 1] as int;
      if len == 0 || len > 32 || p + 2 + len > end {
        return Err(Malformed);
      }
      ghost var before := types;
      for i := 0 to len
        invariant types == PushWindow(window, data, p + 2, i, before)
      {
        ghost var done := types;
        for bit := 0 to 8
          invariant types == PushOctet(window, i, buf[p + 2 + i], bit, done)
        {
          if Has(buf[p + 2 + i], bit) {
            types := types + [TypeAt(window, i, bit)];
          }
        }
      }
      p := p + 2 + len;
    }
    r := Ok(types);
  }
}
