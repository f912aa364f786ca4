/** Results and bounds-checked big-endian reads (src/wire.rs, src/error.rs). */
module Octets {

  /** An error of the resolver. Messages are not modelled: only the class of an error is. */
  datatype Error = Malformed | Internal

  datatype Result<+T> = Ok(value: T) | Err(error: Error)

  datatype Option<+T> = None | Some(value: T)

  newtype byte = x: int | 0 <= x < 0x100
  type uint16 = x: int | 0 <= x < 0x1_0000
  type uint32 = x: int | 0 <= x < 0x1_0000_0000

  function U16Bytes(v: uint16): (b: seq<byte>)
    ensures |b| == 2
  {
    [(v / 0x100) as byte, (v % 0x100) as byte]
  }

  function U32Bytes(v: uint32): (b: seq<byte>)
    ensures |b| == 4
  {
    U16Bytes(v / 0x1_0000) + U16Bytes(v % 0x1_0000)
  }

  function U16Of(hi: byte, lo: byte): uint16 {
    hi as int * 0x100 + lo as int
  }

  /** The big-endian 16-bit integer at `at`, or an error when it is not all there. */
  function U16At(buf: seq<byte>, at: nat): Result<uint16> {
    if at + 2 <= |buf| then Ok(U16Of(buf[at], buf[at + 1])) else Err(Malformed)
  }

  function U32At(buf: seq<byte>, at: nat): Result<uint32> {
    if at + 4 <= |buf| then
      Ok(U16Of(buf[at], buf[at + 1]) * 0x1_0000 + U16Of(buf[at + 2], buf[at + 3]))
    else
      Err(Malformed)
  }

  /** `buf` holds `part` at offset `at`. */
  ghost predicate HoldsAt(buf: seq<byte>, at: nat, part: seq<byte>) {
    at + |part| <= |buf| && buf[at..at + |part|] == part
  }

  lemma TakeSnoc<T>(s: seq<T>, n: nat)
    requires n < |s|
    ensures s[..n + 1] == s[..n] + [s[n]]
  {
  }

  lemma TakeAll<T>(s: seq<T>)
    ensures s[..|s|] == s
  {
  }

  lemma SliceSnoc<T>(s: seq<T>, lo: nat, hi: nat)
    requires lo < hi <= |s|
    ensures s[lo..hi] == s[lo..hi - 1] + [s[hi - 1]]
  {
  }

  lemma AppendNothing<T>(s: seq<T>)
    ensures s + [] == s
  {
  }

  lemma PrependNothing<T>(s: seq<T>)
    ensures [] + s == s
  {
  }

  lemma PrefixTrans<T>(a: seq<T>, b: seq<T>, c: seq<T>)
    requires a <= b <= c
    ensures a <= c
  {
  }

  lemma PrefixGrow<T>(a: seq<T>, b: seq<T>)
    ensures a <= a + b
  {
  }

  lemma PrefixGrows<T>(a: seq<T>, b: seq<T>, c: seq<T>)
    ensures a <= a + b + c && a + b <= a + b + c
  {
  }

  lemma Associative<T>(a: seq<T>, b: seq<T>, c: seq<T>)
    ensures a + (b + c) == (a + b) + c
  {
  }

  /** `f(s[0]) + ... + f(s[n - 1])`. */
  function FlatMap<A, T>(f: A -> seq<T>, s: seq<A>, n: nat): seq<T>
    requires n <= |s|
  {
    if n == 0 then [] else FlatMap(f, s, n - 1) + f(s[n - 1])
  }

  function Map<A, B>(f: A -> B, s: seq<A>): (r: seq<B>)
    ensures |r| == |s| && forall i :: 0 <= i < |s| ==> r[i] == f(s[i])
  {
    seq(|s|, i requires 0 <= i < |s| => f(s[i]))
  }

  /** The first `n` elements of `xs`, taken into the state one by one until one is refused. */
  function Fold<S, A>(take: (S, A) -> Result<S>, s: S, xs: seq<A>, n: nat): Result<S>
    requires n <= |xs|
  {
    if n == 0 then Ok(s)
    else
      match Fold(take, s, xs, n - 1)
      case Err(e) => Err(e)
      case Ok(t) => take(t, xs[n - 1])
  }

  lemma {:induction false} FoldFails<S, A>(take: (S, A) -> Result<S>, s: S, xs: seq<A>, k: nat, n: nat)
    requires k <= n <= |xs| && Fold(take, s, xs, k).Err?
    ensures Fold(take, s, xs, n) == Fold(take, s, xs, k)
  {
    if k < n {
      FoldFails(take, s, xs, k, n - 1);
    }
  }

  lemma {:induction false} FoldOfPrefix<S, A>(take: (S, A) -> Result<S>, s: S, a: seq<A>, all: seq<A>, n: nat)
    requires n <= |a| && a <= all
    ensures Fold(take, s, all, n) == Fold(take, s, a, n)
  {
    if n > 0 {
      FoldOfPrefix(take, s, a, all, n - 1);
    }
  }

  /** Taking two lists one after the other is taking their concatenation. */
  lemma {:induction false} FoldJoin<S, A>(take: (S, A) -> Result<S>, s: S, a: seq<A>, b: seq<A>, k: nat, all: seq<A>)
    requires k <= |b| && all == a + b
    ensures Fold(take, s, all, |a| + k) == match Fold(take, s, a, |a|)
                                           case Err(e) => Err(e)
                                           case Ok(t) => Fold(take, t, b, k)
  {
    if k > 0 {
      FoldJoin(take, s, a, b, k - 1, all);
      assert all[|a| + k - 1] == b[k - 1];
    } else {
      FoldOfPrefix(take, s, a, all, |a|);
    }
  }

  lemma {:induction false} FlatMapPrefix<A, T>(f: A -> seq<T>, s: seq<A>, k: nat, n: nat)
    requires k <= n <= |s|
    ensures FlatMap(f, s, k) <= FlatMap(f, s, n)
  {
    if k < n {
      FlatMapPrefix(f, s, k, n - 1);
    }
  }

  /** In the concatenation, part `k` stands where the first `k` parts end. */
  lemma {:induction false} FlatMapPart<A>(f: A -> seq<byte>, s: seq<A>, k: nat, data: seq<byte>)
    requires k < |s| && data == FlatMap(f, s, |s|)
    ensures HoldsAt(data, |FlatMap(f, s, k)|, f(s[k]))
  {
    FlatMapPrefix(f, s, k + 1, |s|);
    var front := FlatMap(f, s, k);
    assert front + f(s[k]) <= data;
    HoldsInside(front, f(s[k]), data[|front + f(s[k])|..]);
    assert data == front + f(s[k]) + data[|front + f(s[k])|..];
  }

  lemma HoldsParts(buf: seq<byte>, at: nat, a: seq<byte>, b: seq<byte>)
    ensures HoldsAt(buf, at, a + b) <==> HoldsAt(buf, at, a) && HoldsAt(buf, at + |a|, b)
  {
    if at + |a + b| <= |buf| {
      var x, y := buf[at..at + |a|], buf[at + |a|..at + |a| + |b|];
      assert buf[at..at + |a + b|] == x + y;
      assert (x + y)[..|a|] == x && (x + y)[|a|..] == y;
      assert (a + b)[..|a|] == a && (a + b)[|a|..] == b;
    }
  }

  lemma PrefixHolds(front: seq<byte>, part: seq<byte>, buf: seq<byte>)
    requires front + part <= buf
    ensures HoldsAt(buf, |front|, part)
  {
    assert buf[|front|..|front| + |part|] == (front + part)[|front|..];
  }

  lemma HoldsWithin(buf: seq<byte>, at: nat, data: seq<byte>, k: nat, part: seq<byte>)
    requires HoldsAt(buf, at, data) && HoldsAt(data, k, part)
    ensures HoldsAt(buf, at + k, part)
  {
    forall i | 0 <= i < |part| ensures buf[at + k..at + k + |part|][i] == part[i] {
      assert data[k..k + |part|][i] == part[i];
      assert buf[at..at + |data|][k + i] == data[k + i];
    }
  }

  lemma HoldsOne(buf: seq<byte>, at: nat, x: byte)
    requires HoldsAt(buf, at, [x])
    ensures buf[at] == x
  {
    assert buf[at..at + 1][0] == x;
  }

  lemma HoldsTwo(buf: seq<byte>, at: nat, x: byte, y: byte)
    requires HoldsAt(buf, at, [x, y])
    ensures buf[at] == x && buf[at + 1] == y
  {
    assert buf[at..at + 2][0] == x && buf[at..at + 2][1] == y;
  }

  lemma HoldsInside(pre: seq<byte>, part: seq<byte>, post: seq<byte>)
    ensures HoldsAt(pre + part + post, |pre|, part)
  {
  }

  lemma HoldsSurvives(buf: seq<byte>, buf': seq<byte>, at: nat, part: seq<byte>)
    requires HoldsAt(buf, at, part) && |buf| <= |buf'|
    requires forall i: nat :: at <= i < at + |part| ==> buf'[i] == buf[i]
    ensures HoldsAt(buf', at, part)
  {
    assert buf'[at..at + |part|] == buf[at..at + |part|];
  }

  lemma ReadsU16(buf: seq<byte>, at: nat, v: uint16)
    requires HoldsAt(buf, at, U16Bytes(v))
    ensures U16At(buf, at) == Ok(v)
  {
    assert buf[at] == buf[at..at + 2][0];
    assert buf[at + 1] == buf[at..at + 2][1];
  }

  lemma ReadsU32(buf: seq<byte>, at: nat, v: uint32)
    requires HoldsAt(buf, at, U32Bytes(v))
    ensures U32At(buf, at) == Ok(v)
  {
    HoldsParts(buf, at, U16Bytes(v / 0x1_0000), U16Bytes(v % 0x1_0000));
    ReadsU16(buf, at, v / 0x1_0000);
    ReadsU16(buf, at + 2, v % 0x1_0000);
  }

  /** A growing octet buffer: the `Vec<u8>` every serializer appends to, patches and truncates. */
  class Buffer {
    var data: seq<byte>

    constructor ()
      ensures data == []
    {
      data := [];
    }

    method Extend(bytes: seq<byte>)
      modifies this
      ensures data == old(data) + bytes
    {
      data := data + bytes;
    }

    /** Overwrites the octets at `at`; an out-of-range patch is refused and changes nothing. */
    method Patch(at: nat, bytes: seq<byte>) returns (ok: bool)
      modifies this
      ensures ok == (at + |bytes| <= |old(data)|)
      ensures ok ==> data == old(data)[..at] + bytes + old(data)[at + |bytes|..]
      ensures !ok ==> data == old(data)
    {
      ok := at + |bytes| <= |data|;
      if ok {
        data := data[..at] + bytes + data[at + |bytes|..];
      }
    }

    method Truncate(len: nat)
      modifies this
      ensures data == if len < |old(data)| then old(data)[..len] else old(data)
    {
      if len < |data| {
        data := data[..len];
      }
    }
  }
}
