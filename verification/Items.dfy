/** Lists of self-delimiting items, as TXT strings, SVCB parameters and EDNS options are read:
    item after item until the end of the data. */
module Items {
  import opened Octets

  /** Reads one item at an offset, up to an end, and says where it stops. */
  type Reader<T> = (seq<byte>, nat, nat) -> Result<(T, nat)>

  /** `while pos < end { push(read(pos)) }`, with the items `done` already read. A reader that makes no
      progress is cut off; none of the readers of the program is one. */
  function ReadItems<T>(read: Reader<T>, buf: seq<byte>, pos: nat, end: nat, done: seq<T>): Result<seq<T>>
    decreases end - pos
  {
    if pos >= end then Ok(done)
    else
      match read(buf, pos, end)
      case Err(e) => Err(e)
      case Ok((x, next)) => if next <= pos then Err(Internal) else ReadItems(read, buf, next, end, done + [x])
  }

  /** `read` reads back what `write` wrote of `x`, wherever it stands. */
  ghost predicate ReadsBack<T>(read: Reader<T>, write: T -> seq<byte>, x: T, y: T) {
    |write(x)| > 0 &&
    forall buf, at: nat, end: nat :: HoldsAt(buf, at, write(x)) && at + |write(x)| <= end <= |buf|
                                     ==> read(buf, at, end) == Ok((y, at + |write(x)|))
  }

  lemma ReadOneMore<T>(read: Reader<T>, write: T -> seq<byte>, buf: seq<byte>, pos: nat, end: nat,
                       done: seq<T>, x: T, y: T)
    requires ReadsBack(read, write, x, y) && HoldsAt(buf, pos, write(x)) && pos + |write(x)| <= end <= |buf|
    ensures ReadItems(read, buf, pos, end, done) == ReadItems(read, buf, pos + |write(x)|, end, done + [y])
  {
    assert read(buf, pos, end) == Ok((y, pos + |write(x)|));
    hide ReadsBack, HoldsAt;
  }

  /** What was written item after item is read back item after item, to the same end. */
  lemma {:induction false} ReadWritten<T>(read: Reader<T>, write: T -> seq<byte>, xs: seq<T>, ys: seq<T>, n: nat,
                                          data: seq<byte>, buf: seq<byte>, at: nat, end: nat)
    requires |ys| == |xs| && (forall i :: 0 <= i < |xs| ==> ReadsBack(read, write, xs[i], ys[i]))
    requires data == FlatMap(write, xs, |xs|) && HoldsAt(buf, at, data) && at + |data| == end && n <= |xs|
    ensures ReadItems(read, buf, at + |FlatMap(write, xs, n)|, end, ys[..n]) == Ok(ys)
    decreases |xs| - n
  {
    if n < |xs| {
      hide *;
      ItemPart(write, xs, n, data, buf, at);
      HoldsEnds(buf, at, data);
      ReadOneMore(read, write, buf, at + |FlatMap(write, xs, n)|, end, ys[..n], xs[n], ys[n]);
      ReadWritten(read, write, xs, ys, n + 1, data, buf, at, end);
      TakeSnoc(ys, n);
    } else {
      TakeAll(ys);
      hide FlatMap, HoldsAt, ReadsBack;
    }
  }

  lemma HoldsEnds(buf: seq<byte>, at: nat, part: seq<byte>)
    requires HoldsAt(buf, at, part)
    ensures at + |part| <= |buf|
  {
  }

  lemma {:induction false} ReadAll<T>(read: Reader<T>, write: T -> seq<byte>, xs: seq<T>, ys: seq<T>, data: seq<byte>,
                                      buf: seq<byte>, at: nat, end: nat)
    requires |ys| == |xs| && (forall i :: 0 <= i < |xs| ==> ReadsBack(read, write, xs[i], ys[i]))
    requires data == FlatMap(write, xs, |xs|) && HoldsAt(buf, at, data) && at + |data| == end
    ensures ReadItems(read, buf, at, end, []) == Ok(ys)
  {
    assert FlatMap(write, xs, 0) == [] && ys[..0] == [];
    hide FlatMap, ReadItems, ReadsBack, HoldsAt;
    ReadWritten(read, write, xs, ys, 0, data, buf, at, end);
  }

  lemma ItemPart<T>(write: T -> seq<byte>, xs: seq<T>, n: nat, data: seq<byte>, buf: seq<byte>, at: nat)
    requires n < |xs| && data == FlatMap(write, xs, |xs|) && HoldsAt(buf, at, data)
    ensures var pos := at + |FlatMap(write, xs, n)|;
            && HoldsAt(buf, pos, write(xs[n]))
            && at + |FlatMap(write, xs, n + 1)| == pos + |write(xs[n])| <= at + |data|
  {
    FlatMapPart(write, xs, n, data);
    FlatMapPrefix(write, xs, n + 1, |xs|);
    HoldsWithin(buf, at, data, |FlatMap(write, xs, n)|, write(xs[n]));
  }
}
