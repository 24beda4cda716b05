/** The bitmap of free blocks: `uint64_t` words, read and cleared with the 64-bit masks the code intends. */
module Bitmap {

  /** `f & (1 << i)` is not zero. */
  predicate Bit(f: nat, i: nat)
    decreases i
  {
    if i == 0 then f % 2 == 1 else Bit(f / 2, i - 1)
  }

  /** `f & ~(1 << i)` */
  function Clear(f: nat, i: nat): (r: nat)
    ensures r <= f
    decreases i
  {
    if i == 0 then f - f % 2 else 2 * Clear(f / 2, i - 1) + f % 2
  }

  function FreeSet(f: nat): set<nat>
  {
    set i | 0 <= i < 64 && Bit(f, i)
  }

  function Pow2(i: nat): (p: nat)
    ensures p >= 1
  {
    if i == 0 then 1 else 2 * Pow2(i - 1)
  }

  /** Bit `i` is the one of weight 2^i. */
  lemma {:induction false} BitIs(f: nat, i: nat)
    ensures Bit(f, i) <==> f / Pow2(i) % 2 == 1
    decreases i
  {
    if i > 0 {
      BitIs(f / 2, i - 1);
      HalfFirst(f, Pow2(i - 1));
    }
  }

  lemma HalfFirst(f: nat, p: nat)
    requires p >= 1
    ensures f / 2 / p == f / (2 * p)
  {
    var q := f / (2 * p);
    var r := f % (2 * p);
    assert f == q * (2 * p) + r;
    assert f / 2 == q * p + r / 2 by { assert f == 2 * (q * p) + r; }
    assert 0 <= r / 2 < p;
    Quotient(q, p, r / 2);
  }

  lemma Quotient(q: nat, p: nat, r: nat)
    requires r < p
    ensures (q * p + r) / p == q
  {
    var x := (q * p + r) / p;
    assert (x - q) * p == r - (q * p + r) % p;
    Multiple(x - q, p);
  }

  lemma Multiple(d: int, p: nat)
    ensures d >= 1 ==> d * p >= p
    ensures d <= -1 ==> d * p + p <= 0
  {
    assert d * p == (d - 1) * p + p == (d + 1) * p - p;
  }

  lemma {:induction false} ClearOne(f: nat, i: nat, j: nat)
    ensures Bit(Clear(f, i), j) == (i != j && Bit(f, j))
    decreases i
  {
    if i > 0 && j > 0 {
      ClearOne(f / 2, i - 1, j - 1);
      assert Clear(f, i) / 2 == Clear(f / 2, i - 1);
    } else if j > 0 {
      assert Clear(f, 0) / 2 == f / 2;
    }
  }

  /** Clearing a bit takes exactly that block out of the free ones. */
  lemma ClearBit(f: nat, i: nat)
    requires i < 64
    ensures FreeSet(Clear(f, i)) == FreeSet(f) - {i}
  {
    forall j | 0 <= j < 64
      ensures Bit(Clear(f, i), j) == (i != j && Bit(f, j))
    {
      ClearOne(f, i, j);
    }
  }
}
