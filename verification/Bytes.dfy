/** Bytes, fixed-width little-endian integers, and the 64-bit fold used throughout the tools. */
module Bytes {

  type byte = x: int | 0 <= x < 256

  const TWO32: int := 0x1_0000_0000
  const TWO63: int := 0x8000_0000_0000_0000
  const TWO64: int := 0x1_0000_0000_0000_0000

  function Pow2(n: nat): (p: nat)
    ensures p > 0
  {
    if n == 0 then 1 else 2 * Pow2(n - 1)
  }

  function Pow256(w: nat): (p: nat)
    ensures p > 0
  {
    if w == 0 then 1 else 256 * Pow256(w - 1)
  }

  /** The low `w` bytes of `n`, least significant first. */
  function Le(n: nat, w: nat): (s: seq<byte>)
    ensures |s| == w
  {
    if w == 0 then [] else [n % 256] + Le(n / 256, w - 1)
  }

  function FromLe(s: seq<byte>): nat
  {
    if s == [] then 0 else s[0] + 256 * FromLe(s[1..])
  }

  lemma {:induction false} LeRoundTrip(n: nat, w: nat)
    requires n < Pow256(w)
    ensures FromLe(Le(n, w)) == n
  {
    if w == 0 {
    } else {
      LeRoundTrip(n / 256, w - 1);
      assert Le(n, w)[1..] == Le(n / 256, w - 1);
    }
  }

  lemma {:induction false} FromLeBound(s: seq<byte>)
    ensures FromLe(s) < Pow256(|s|)
  {
    if s != [] {
      FromLeBound(s[1..]);
    }
  }

  lemma Powers()
    ensures Pow256(2) == 0x1_0000 && Pow256(4) == TWO32 && Pow256(8) == TWO64
  {
    assert Pow256(1) == 256 && Pow256(2) == 256 * Pow256(1);
    assert Pow256(3) == 256 * Pow256(2) && Pow256(4) == 256 * Pow256(3);
    assert Pow256(5) == 256 * Pow256(4) && Pow256(6) == 256 * Pow256(5);
    assert Pow256(7) == 256 * Pow256(6) && Pow256(8) == 256 * Pow256(7);
  }

  /** A UTF-16 unit is two bytes. */
  function Units(s: seq<nat>): (bytes: seq<byte>)
    ensures |bytes| == 2 * |s|
  {
    if s == [] then [] else Le(s[0], 2) + Units(s[1..])
  }

  /** The two's complement value of the low 64 bits of `v`. */
  function Fold64(v: int): (r: int)
    ensures -TWO63 <= r < TWO63 && (v - r) % TWO64 == 0
  {
    var m := v % TWO64;
    if m >= TWO63 then m - TWO64 else m
  }

  /** Adding any multiple of 2^64 does not change the folded value. */
  lemma Fold64Congruent(a: int, b: int, k: int)
    requires a == b + k * TWO64
    ensures Fold64(a) == Fold64(b)
  {
  }

  lemma Fold64Identity(v: int)
    requires -TWO63 <= v < TWO63
    ensures Fold64(v) == v
  {
  }

  // ---------------------------------------------------------------- division by a variable

  lemma Split(q: int, p: int, r: int)
    requires 0 <= r < p
    ensures (q * p + r) / p == q && (q * p + r) % p == r
  {
    var n := q * p + r;
    Unique(n / p, n % p, q, r, p);
  }

  lemma Unique(a: int, b: int, q: int, r: int, p: int)
    requires a * p + b == q * p + r && 0 <= b < p && 0 <= r < p
    ensures a == q && b == r
  {
    if a > q {
      AtLeast(a, q, p);
    } else if a < q {
      AtLeast(q, a, p);
    }
  }

  lemma AtLeast(a: int, q: int, p: int)
    requires a > q && p > 0
    ensures a * p >= q * p + p
  {
    var k := a - q - 1;
    assert a * p == (q + 1 + k) * p == q * p + p + k * p;
  }

  // ---------------------------------------------------------------- 4-byte alignment

  function Align(n: nat): (r: nat)
    ensures n <= r < n + 4 && r % 4 == 0
  {
    (n + 3) / 4 * 4
  }

  lemma AlignAdd(pos: nat, n: nat)
    requires pos % 4 == 0
    ensures Align(pos + n) == pos + Align(n)
  {
  }

  function Zeros(n: nat): (s: seq<byte>)
    ensures |s| == n
  {
    seq(n, _ => 0)
  }

  function Padded(s: seq<byte>): (r: seq<byte>)
    ensures |r| == Align(|s|) && s <= r
  {
    s + Zeros(Align(|s|) - |s|)
  }

  // ---------------------------------------------------------------- parts of byte strings

  lemma SamePart(a: seq<byte>, b: seq<byte>, lo: nat, hi: nat, x: nat, y: nat)
    requires lo <= x <= y <= hi <= |a| && hi <= |b| && a[lo..hi] == b[lo..hi]
    ensures a[x..y] == b[x..y]
  {
    forall i | x <= i < y
      ensures a[i] == b[i]
    {
      assert a[lo..hi][i - lo] == b[lo..hi][i - lo];
    }
  }

  lemma PartOf(a: seq<byte>, lo: nat, whole: seq<byte>, x: nat, y: nat)
    requires x <= y <= |whole| && lo + |whole| <= |a| && a[lo..lo + |whole|] == whole
    ensures a[lo + x..lo + y] == whole[x..y]
  {
    forall i | x <= i < y
      ensures a[lo + i] == whole[i]
    {
      assert a[lo..lo + |whole|][i] == whole[i];
    }
  }

  lemma Middle(a: seq<byte>, b: seq<byte>, c: seq<byte>, x: nat, y: nat)
    requires x <= y <= |b|
    ensures (a + b + c)[|a| + x..|a| + y] == b[x..y]
  {
  }

  lemma Last(a: seq<byte>, b: seq<byte>, c: seq<byte>, x: nat, y: nat)
    requires x <= y <= |c|
    ensures (a + b + c)[|a| + |b| + x..|a| + |b| + y] == c[x..y]
  {
  }
}
