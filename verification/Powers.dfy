/** Powers of two and division with remainder, as the bit operations of the program use them. */
module Powers {
  function Pow2(k: nat): (m: nat)
    ensures m > 0
  {
    if k == 0 then 1 else 2 * Pow2(k - 1)
  }

  /** Division with remainder has one answer. */
  lemma DivMod(v: int, w: int, hi: int, lo: int)
    requires w > 0 && v == hi * w + lo && 0 <= lo < w
    ensures v / w == hi && v % w == lo
  {
    var d := v / w - hi;
    assert d * w == lo - v % w;
    assert d > 0 ==> d * w >= w;
    assert d < 0 ==> d * w + w <= 0;
  }

  /** Bit `k` of `b`, counted from the least significant one. */
  predicate BitAt(b: nat, k: nat) {
    if k == 0 then b % 2 == 1 else BitAt(b / 2, k - 1)
  }

  lemma {:induction false} ZeroBit(k: nat)
    ensures !BitAt(0, k)
  {
    if k > 0 {
      ZeroBit(k - 1);
    }
  }

  /** `x` without its rest modulo `w`. */
  function Cut(x: nat, w: nat): (c: nat)
    requires w > 0
    ensures c <= x
  {
    x - x % w
  }

  lemma CutHalves(x: nat, p: nat)
    requires p > 0
    ensures Cut(x, 2 * p) == 2 * Cut(x / 2, p)
  {
    var q, r := x / 2 / p, x / 2 % p;
    assert x / 2 == q * p + r;
    assert x == q * (2 * p) + (2 * r + x % 2);
    DivMod(x, 2 * p, q, 2 * r + x % 2);
  }

  /** Cutting below bit `k` clears the bits below it and no other. */
  lemma {:induction false} CutBits(x: nat, k: nat, j: nat)
    ensures BitAt(Cut(x, Pow2(k)), j) <==> k <= j && BitAt(x, j)
  {
    if k > 0 {
      CutHalves(x, Pow2(k - 1));
      hide Cut;
      if j > 0 {
        CutBits(x / 2, k - 1, j - 1);
      }
    }
  }
}
