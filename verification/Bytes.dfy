/** Bytes, little-endian integers and in-place overwriting of a stretch of a sequence. */
module Bytes {

  type Byte = x: int | 0 <= x < 256

  /** What `memcpy(s + off, d, |d|)` leaves behind. */
  function Overwrite<T>(s: seq<T>, off: nat, d: seq<T>): (r: seq<T>)
    requires off + |d| <= |s|
    ensures |r| == |s|
    ensures r[off..off + |d|] == d
    ensures forall i :: 0 <= i < off || off + |d| <= i < |s| ==> r[i] == s[i]
  {
    s[..off] + d + s[off + |d|..]
  }

  /** A stretch that the overwritten one does not meet keeps its bytes. */
  lemma OverwriteFrame<T>(s: seq<T>, off: nat, d: seq<T>, lo: nat, hi: nat)
    requires off + |d| <= |s| && lo <= hi <= |s|
    requires hi <= off || off + |d| <= lo
    ensures Overwrite(s, off, d)[lo..hi] == s[lo..hi]
  {
    var r := Overwrite(s, off, d);
    forall i | 0 <= i < hi - lo
      ensures r[lo..hi][i] == s[lo..hi][i]
    {
      assert r[lo..hi][i] == r[lo + i];
    }
  }

  /** Overwriting an overwritten prefix further on: two adjacent copies are one. */
  lemma OverwriteAppend<T>(s: seq<T>, off: nat, d: seq<T>, e: seq<T>)
    requires off + |d| + |e| <= |s|
    ensures Overwrite(Overwrite(s, off, d), off + |d|, e) == Overwrite(s, off, d + e)
  {
  }

  function Pow256(w: nat): (p: nat)
    ensures p >= 1
  {
    if w == 0 then 1 else 256 * Pow256(w - 1)
  }

  /** The `w` low-order bytes of `n`, least significant first. */
  function ToLe(n: nat, w: nat): (s: seq<Byte>)
    ensures |s| == w
    decreases w
  {
    if w == 0 then [] else [n % 256] + ToLe(n / 256, w - 1)
  }

  function FromLe(s: seq<Byte>): (n: nat)
  {
    if s == [] then 0 else s[0] + 256 * FromLe(s[1..])
  }

  lemma {:induction false} LeRoundTrip(n: nat, w: nat)
    requires n < Pow256(w)
    ensures FromLe(ToLe(n, w)) == n
    decreases w
  {
    if w > 0 {
      LeRoundTrip(n / 256, w - 1);
      assert ToLe(n, w)[1..] == ToLe(n / 256, w - 1);
    }
  }

  lemma Pow256Values()
    ensures Pow256(4) == 0x1_0000_0000
    ensures Pow256(8) == 0x1_0000_0000_0000_0000
  {
    assert Pow256(2) == 0x1_0000;
    assert Pow256(4) == 0x1_0000_0000;
    assert Pow256(6) == 0x1_0000_0000_0000;
  }

  /** The C string at the start of `s`: everything before its first NUL. */
  function CString(s: seq<Byte>): (r: seq<Byte>)
    ensures r <= s && 0 !in r
    ensures |r| < |s| ==> s[|r|] == 0
  {
    if s == [] || s[0] == 0 then [] else [s[0]] + CString(s[1..])
  }

  /** Reading a C string finds exactly the NUL-free bytes before the first NUL. */
  lemma {:induction false} CStringUnique(s: seq<Byte>, n: nat)
    requires n < |s| && s[n] == 0 && 0 !in s[..n]
    ensures CString(s) == s[..n]
  {
    if n > 0 {
      assert s[..n][0] == s[0] && s[1..][..n - 1] == s[..n][1..];
      CStringUnique(s[1..], n - 1);
    }
  }
}
