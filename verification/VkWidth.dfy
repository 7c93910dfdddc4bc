/** A generic command's arguments and result as 64-bit words: how the guest widens them and the host narrows them. */
module VkWidth {
  import opened Bytes

  /** How a parameter travels. Floats are the bits they are made of. */
  datatype Kind = Unsigned(bytes: nat) | Signed(bytes: nat) | Address | Float(bytes: nat)

  predicate Known(k: Kind)
  {
    match k
    case Unsigned(n) => n in {1, 2, 4, 8}
    case Signed(n) => n in {1, 2, 4, 8}
    case Address => true
    case Float(n) => n in {4, 8}
  }

  function Values(n: nat): (r: nat)
    ensures n in {1, 2, 4, 8} ==> 256 <= r <= TWO64 && TWO64 % r == 0 && r % 2 == 0
  {
    if n == 1 then 0x100 else if n == 2 then 0x1_0000 else if n == 4 then TWO32 else TWO64
  }

  predicate InRange(k: Kind, v: int)
    requires Known(k)
  {
    match k
    case Signed(n) => var half: int := Values(n) / 2; -half <= v < half
    case Unsigned(n) => 0 <= v < Values(n)
    case Float(n) => 0 <= v < Values(n)
    case Address => 0 <= v < TWO64
  }

  /** The guest: a cast to 64 bits, which extends a sign; a float's bits as they are. */
  function Widen(k: Kind, v: int): (w: nat)
    requires Known(k) && InRange(k, v)
    ensures w < TWO64
  {
    v % TWO64
  }

  /** The host: truncated to the parameter's width, then read with its sign. */
  function Narrow(k: Kind, w: nat): int
    requires Known(k)
  {
    match k
    case Signed(n) => var u := w % Values(n); if u >= Values(n) / 2 then u - Values(n) else u
    case Unsigned(n) => w % Values(n)
    case Float(n) => w % Values(n)
    case Address => w % TWO64
  }

  /** The integers of one, two, four and eight bytes, of either sign; the bits of the two floats; the addresses. */
  lemma RangesExactly(v: int)
    ensures forall n :: Known(Unsigned(n)) <==> n == 1 || n == 2 || n == 4 || n == 8
    ensures forall n :: Known(Signed(n)) <==> n == 1 || n == 2 || n == 4 || n == 8
    ensures (forall n :: Known(Float(n)) <==> n == 4 || n == 8) && Known(Address)
    ensures InRange(Unsigned(1), v) <==> 0 <= v <= 0xff
    ensures InRange(Unsigned(2), v) <==> 0 <= v <= 0xffff
    ensures InRange(Unsigned(4), v) <==> 0 <= v <= 0xffff_ffff
    ensures InRange(Unsigned(8), v) <==> 0 <= v <= 0xffff_ffff_ffff_ffff
    ensures InRange(Signed(1), v) <==> -0x80 <= v <= 0x7f
    ensures InRange(Signed(2), v) <==> -0x8000 <= v <= 0x7fff
    ensures InRange(Signed(4), v) <==> -0x8000_0000 <= v <= 0x7fff_ffff
    ensures InRange(Signed(8), v) <==> -0x8000_0000_0000_0000 <= v <= 0x7fff_ffff_ffff_ffff
    ensures InRange(Float(4), v) <==> 0 <= v <= 0xffff_ffff
    ensures InRange(Float(8), v) <==> 0 <= v <= 0xffff_ffff_ffff_ffff
    ensures InRange(Address, v) <==> 0 <= v <= 0xffff_ffff_ffff_ffff
  {
  }

  /** What travels is the value's 64-bit two's complement. */
  lemma WordsSent(k: Kind, v: int)
    requires Known(k) && InRange(k, v)
    ensures Widen(k, v) == if v < 0 then v + 0x1_0000_0000_0000_0000 else v
  {
  }

  /** The host's driver gets exactly the value the guest's caller passed. */
  lemma NarrowWidens(k: Kind, v: int)
    requires Known(k) && InRange(k, v)
    ensures Narrow(k, Widen(k, v)) == v
  {
    if k.Signed? && v < 0 {
      assert Widen(k, v) == v + TWO64;
      if k.bytes == 1 {
      } else if k.bytes == 2 {
      } else if k.bytes == 4 {
      } else {
      }
    }
  }

  /** And whatever word it is sent, a value of the parameter's type. */
  lemma NarrowInRange(k: Kind, w: nat)
    requires Known(k)
    ensures InRange(k, Narrow(k, w))
  {
  }

  predicate AllInRange(ks: seq<Kind>, vs: seq<int>)
  {
    |ks| == |vs| && forall i :: 0 <= i < |ks| ==> Known(ks[i]) && InRange(ks[i], vs[i])
  }

  function WidenAll(ks: seq<Kind>, vs: seq<int>): (ws: seq<nat>)
    requires AllInRange(ks, vs)
    ensures |ws| == |vs| && forall i :: 0 <= i < |ws| ==> ws[i] < TWO64
  {
    seq(|vs|, i requires 0 <= i < |vs| => Widen(ks[i], vs[i]))
  }

  function NarrowAll(ks: seq<Kind>, ws: seq<nat>): seq<int>
    requires |ks| == |ws| && forall i :: 0 <= i < |ks| ==> Known(ks[i])
  {
    seq(|ws|, i requires 0 <= i < |ws| => Narrow(ks[i], ws[i]))
  }

  /** A whole call: the words are 64-bit, and the host makes the call that was made. */
  lemma CallArrives(ks: seq<Kind>, vs: seq<int>)
    requires AllInRange(ks, vs)
    ensures NarrowAll(ks, WidenAll(ks, vs)) == vs
  {
    hide Narrow, Widen;
    var got := NarrowAll(ks, WidenAll(ks, vs));
    forall i | 0 <= i < |vs|
      ensures got[i] == vs[i]
    {
      NarrowWidens(ks[i], vs[i]);
    }
  }

  /**
   * A VkResult comes back the same, negative error codes included: the host sends its low 32 bits, the
   * guest reads them signed.
   */
  lemma ResultReturns(r: int)
    requires InRange(Signed(4), r)
    ensures var sent := Narrow(Unsigned(4), Widen(Signed(4), r)); sent >= 0 && Narrow(Signed(4), sent) == r
  {
    LowHalf(r);
    assert Widen(Signed(4), r) == r % TWO64;
  }

  lemma LowHalf(r: int)
    requires -(TWO32 / 2) <= r < TWO32 / 2
    ensures r % TWO64 % TWO32 == if r < 0 then r + TWO32 else r
  {
    assert r % TWO64 == if r < 0 then r + TWO64 else r;
  }
}
