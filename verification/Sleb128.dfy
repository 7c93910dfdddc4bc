/** SLEB128 (section 7.6 of DWARF 4): the cursor the relocation decoder reads with. */
module SlebReader {
  import opened Wrappers
  import opened Bytes

  datatype Aps2Error = BadMagic | RanOff | NegativeCount | GroupSize | Trailing

  /** What the byte without a continuation bit contributes: seven bits, sign included. */
  function LastByte(b: byte): (v: int)
    requires b < 128
    ensures -64 <= v < 64 && v % 128 == b
  {
    if b < 64 then b else b - 128
  }

  /** The signed integer a terminated byte string denotes, of any width, and the bytes after it. */
  function ReadSleb(s: seq<byte>): Option<(int, seq<byte>)>
  {
    if s == [] then None
    else if s[0] < 128 then Some((LastByte(s[0]), s[1..]))
    else
      var (v, rest) :- ReadSleb(s[1..]);
      Some((s[0] - 128 + 128 * v, rest))
  }

  /** The shortest encoding of `v`. */
  function EncodeSleb(v: int): (s: seq<byte>)
    ensures s != []
    decreases if v < 0 then -v else v
  {
    if -64 <= v < 64 then [v % 128] else [128 + v % 128] + EncodeSleb(v / 128)
  }

  lemma {:induction false} SlebRoundTrip(v: int, rest: seq<byte>)
    ensures ReadSleb(EncodeSleb(v) + rest) == Some((v, rest))
    decreases if v < 0 then -v else v
  {
    var s := EncodeSleb(v) + rest;
    if -64 <= v < 64 {
      assert s[1..] == rest;
    } else {
      SlebRoundTrip(v / 128, rest);
      assert s[1..] == EncodeSleb(v / 128) + rest;
    }
  }

  /** What has been read does not depend on the bytes that follow it. */
  lemma {:induction false} ReadSlebLocal(s: seq<byte>, more: seq<byte>)
    requires ReadSleb(s).Some?
    ensures var (v, rest) := ReadSleb(s).value; ReadSleb(s + more) == Some((v, rest + more))
  {
    assert (s + more)[1..] == s[1..] + more;
    if s[0] >= 128 {
      ReadSlebLocal(s[1..], more);
    }
  }

  /** One pop: the value folded into 64 bits. */
  function PopSpec(s: seq<byte>): Result<(int, seq<byte>), Aps2Error>
  {
    match ReadSleb(s)
    case None => Err(RanOff)
    case Some((v, rest)) => Ok((Fold64(v), rest))
  }

  lemma PopEncoded(v: int, rest: seq<byte>)
    requires -TWO63 <= v < TWO63
    ensures PopSpec(EncodeSleb(v) + rest) == Ok((v, rest))
  {
    SlebRoundTrip(v, rest);
    Fold64Identity(v);
  }

  lemma Pow2Split(n: nat, m: nat)
    requires n >= m
    ensures Pow2(n) == Pow2(n - m) * Pow2(m)
  {
    if n > m {
      Pow2Split(n - 1, m);
      assert Pow2(n) == 2 * (Pow2(n - 1 - m) * Pow2(m));
      assert 2 * (Pow2(n - 1 - m) * Pow2(m)) == (2 * Pow2(n - 1 - m)) * Pow2(m);
    }
  }

  lemma Pow2Is64()
    ensures Pow2(64) == TWO64
  {
    assert Pow2(8) == 256 by {
      Pow2Plus7(1);
    }
    Pow2Split(16, 8);
    Pow2Split(32, 16);
    Pow2Split(64, 32);
  }

  lemma Pow2Plus7(n: nat)
    ensures Pow2(n + 7) == 128 * Pow2(n)
  {
    assert Pow2(n + 7) == 2 * Pow2(n + 6) == 4 * Pow2(n + 5) == 8 * Pow2(n + 4);
    assert Pow2(n + 4) == 2 * Pow2(n + 3) == 4 * Pow2(n + 2) == 8 * Pow2(n + 1);
  }

  class Sleb128 {
    const data: seq<byte>
    var pos: nat

    ghost predicate Valid()
      reads this
    {
      pos <= |data|
    }

    constructor (data: seq<byte>)
      ensures this.data == data && pos == 0 && Valid()
    {
      this.data := data;
      pos := 0;
    }

    method Pop() returns (r: Result<int, Aps2Error>)
      requires Valid()
      modifies this
      ensures Valid()
      ensures match PopSpec(data[old(pos)..])
              case Ok((v, rest)) => r == Ok(v) && data[pos..] == rest
              case Err(e) => r == Err(e) && pos == |data|
    {
      hide PopSpec, Pow2, Fold64, LastByte;
      var value, shift := 0, 0;
      ghost var whole := data[pos..];
      PendingStart(whole);
      while true
        invariant pos <= |data| && shift >= 0
        invariant Pending(whole, data[pos..], value, Pow2(shift))
        decreases |data| - pos
      {
        if pos >= |data| {
          NothingLeft(whole, data[pos..], value, Pow2(shift));
          return Err(RanOff);
        }
        var b := data[pos];
        ghost var here := data[pos..];
        pos := pos + 1;
        assert here[1..] == data[pos..];
        if b < 128 {
          LastStep(whole, here, value, shift);
        } else {
          MiddleStep(whole, here, value, shift);
        }
        // The seven new bits lie above every bit collected so far, so the bitwise or is a sum.
        value := value + (b % 128) * Pow2(shift);
        shift := shift + 7;
        if b < 128 {
          if b >= 64 && shift < 64 {
            value := value - Pow2(shift);
          }
          return Ok(Fold64(value));
        }
      }
    }
  }

  /** `value` is the low part of what `whole` denotes; `here`, scaled, is the rest of it. */
  ghost predicate Pending(whole: seq<byte>, here: seq<byte>, value: int, scale: nat)
  {
    match ReadSleb(here)
    case None => ReadSleb(whole).None?
    case Some((v, rest)) => ReadSleb(whole) == Some((value + scale * v, rest))
  }

  lemma PendingStart(whole: seq<byte>)
    ensures Pending(whole, whole, 0, Pow2(0))
  {
  }

  lemma NothingLeft(whole: seq<byte>, here: seq<byte>, value: int, scale: nat)
    requires Pending(whole, here, value, scale) && here == []
    ensures PopSpec(whole) == Err(RanOff)
  {
  }

  lemma MiddleStep(whole: seq<byte>, here: seq<byte>, value: int, shift: nat)
    requires here != [] && here[0] >= 128
    requires Pending(whole, here, value, Pow2(shift))
    ensures Pending(whole, here[1..], value + (here[0] % 128) * Pow2(shift), Pow2(shift + 7))
  {
    Pow2Plus7(shift);
    hide Pow2;
    match ReadSleb(here[1..])
    case None =>
    case Some((v, rest)) =>
      Distribute(Pow2(shift), here[0] - 128, v);
  }

  lemma Distribute(scale: int, low: int, v: int)
    ensures scale * (low + 128 * v) == low * scale + (128 * scale) * v
  {
  }

  /** The last byte of a value: its sign reaches up to bit 63 and the fold drops the rest. */
  lemma LastStep(whole: seq<byte>, here: seq<byte>, value: int, shift: nat)
    requires here != [] && here[0] < 128
    requires Pending(whole, here, value, Pow2(shift))
    ensures var collected := value + (here[0] % 128) * Pow2(shift);
            var signed := if here[0] >= 64 && shift + 7 < 64 then collected - Pow2(shift + 7) else collected;
            PopSpec(whole) == Ok((Fold64(signed), here[1..]))
  {
    Pow2Plus7(shift);
    var b := here[0];
    var collected := value + (b % 128) * Pow2(shift);
    var exact := if b < 64 then collected else collected - Pow2(shift + 7);
    assert ReadSleb(whole) == Some((exact, here[1..])) by {
      hide Pow2;
      Distribute(Pow2(shift), b, if b < 64 then 0 else -1);
    }
    if b >= 64 && shift + 7 >= 64 {
      Pow2Is64();
      Pow2Split(shift + 7, 64);
      Fold64Congruent(collected, exact, Pow2(shift + 7 - 64));
    }
  }
}
