/** The command table's fingerprint: a 64-bit FNV-1a hash of its rows. */
module Fingerprint {
  import opened Wrappers
  import opened Bytes

  type State = x: nat | x < TWO64

  const OFFSET: State := 0xCBF29CE484222325
  const PRIME: nat := 0x100000001B3
  /** PRIME's inverse modulo 2^64, and the multiple of 2^64 by which their product passes 1. */
  const INVERSE: nat := 0xCE965057AFF6957B
  const EXCESS: nat := 0xCE9650590F

  /** Exclusive or of the low `n` bits. */
  function XorBits(x: nat, y: nat, n: nat): (r: nat)
    ensures r < Pow2(n)
    decreases n
  {
    if n == 0 then 0 else (if x % 2 == y % 2 then 0 else 1) + 2 * XorBits(x / 2, y / 2, n - 1)
  }

  function Xor(x: byte, y: byte): byte
  {
    XorOfBytes(x, y);
    XorBits(x, y, 8)
  }

  lemma XorOfBytes(x: byte, y: byte)
    ensures XorBits(x, y, 8) < 256
  {
    Pow2Of8();
  }

  lemma Pow2Of8()
    ensures Pow2(8) == 256
  {
    assert Pow2(4) == 16;
  }

  lemma {:induction false} XorBitsCancel(x: nat, y: nat, n: nat)
    requires x < Pow2(n)
    ensures XorBits(XorBits(x, y, n), y, n) == x
    decreases n
  {
    if n > 0 {
      XorBitsCancel(x / 2, y / 2, n - 1);
      assert XorBits(x, y, n) / 2 == XorBits(x / 2, y / 2, n - 1);
    }
  }

  lemma {:induction false} XorBitsSymmetric(x: nat, y: nat, n: nat)
    ensures XorBits(x, y, n) == XorBits(y, x, n)
    decreases n
  {
    if n > 0 {
      XorBitsSymmetric(x / 2, y / 2, n - 1);
    }
  }

  lemma XorCancels(x: byte, y: byte)
    ensures Xor(Xor(x, y), y) == x && Xor(Xor(x, y), x) == y
  {
    Pow2Of8();
    XorBitsCancel(x, y, 8);
    XorBitsCancel(y, x, 8);
    XorBitsSymmetric(x, y, 8);
  }

  /** Each bit is set where just one of the two is. */
  lemma {:induction false} XorBitAt(x: nat, y: nat, n: nat, k: nat)
    requires k < n
    ensures XorBits(x, y, n) / Pow2(k) % 2 == if x / Pow2(k) % 2 == y / Pow2(k) % 2 then 0 else 1
    decreases n
  {
    var r, rest := XorBits(x, y, n), XorBits(x / 2, y / 2, n - 1);
    assert r / 2 == rest;
    if k > 0 {
      XorBitAt(x / 2, y / 2, n - 1, k - 1);
      HalfFirst(x, k);
      HalfFirst(y, k);
      HalfFirst(r, k);
    }
  }

  lemma HalfFirst(x: nat, k: nat)
    requires k > 0
    ensures x / Pow2(k) == x / 2 / Pow2(k - 1)
  {
    var p, h := Pow2(k - 1), x / 2;
    assert x == h / p * (2 * p) + (2 * (h % p) + x % 2);
    Split(h / p, 2 * p, 2 * (h % p) + x % 2);
  }

  /** The byte goes into the low eight bits. */
  function Mix(h: State, b: byte): State
  {
    Joined(h / 256, Xor(h % 256, b))
  }

  function Joined(high: nat, low: byte): State
    requires high < TWO64 / 256
  {
    high * 256 + low
  }

  lemma JoinedApart(high: nat, low: byte)
    requires high < TWO64 / 256
    ensures Joined(high, low) / 256 == high && Joined(high, low) % 256 == low
  {
  }

  lemma MixBack(h: State, b: byte)
    ensures Mix(Mix(h, b), b) == h && Xor(Mix(h, b) % 256, h % 256) == b
  {
    hide Xor;
    XorCancels(h % 256, b);
    JoinedApart(h / 256, Xor(h % 256, b));
  }

  function Times(h: State): State
  {
    h * PRIME % TWO64
  }

  function Step(h: State, b: byte): State
  {
    Times(Mix(h, b))
  }

  function Hash(h: State, data: seq<byte>): State
    decreases |data|
  {
    if data == [] then h else Hash(Step(h, data[0]), data[1..])
  }

  /** The hash of nothing, and of the letter a: two of the values published for 64-bit FNV-1a. */
  lemma KnownHashes()
    ensures FingerprintOf([]) == 0xCBF2_9CE4_8422_2325
    ensures Hash(0xCBF2_9CE4_8422_2325, [97]) == 0xAF63_DC4C_8601_EC8C
  {
    LetterMixed();
    hide Mix;
    assert Hash(0xCBF2_9CE4_8422_2325, [97]) == Step(0xCBF2_9CE4_8422_2325, 97);
  }

  lemma LetterMixed()
    ensures Mix(0xCBF2_9CE4_8422_2325, 97) == 0xCBF2_9CE4_8422_2344
  {
    LetterXor();
    hide XorBits;
    assert 0xCBF2_9CE4_8422_2325 / 256 == 0xCB_F29C_E484_2223;
  }

  lemma LetterXor()
    ensures XorBits(37, 97, 8) == 68
  {
    assert XorBits(1, 3, 3) == 0 + 2 * XorBits(0, 1, 2) && XorBits(0, 1, 2) == 1 + 2 * XorBits(0, 0, 1);
    assert XorBits(4, 12, 5) == 0 + 2 * XorBits(2, 6, 4) && XorBits(2, 6, 4) == 0 + 2 * XorBits(1, 3, 3);
    assert XorBits(18, 48, 7) == 0 + 2 * XorBits(9, 24, 6) && XorBits(9, 24, 6) == 1 + 2 * XorBits(4, 12, 5);
  }

  method Fnv1a64(data: seq<byte>) returns (h: State)
    ensures h == Hash(OFFSET, data)
  {
    hide Mix;
    h := OFFSET;
    for i := 0 to |data|
      invariant Hash(h, data[i..]) == Hash(OFFSET, data)
    {
      var x: int := Mix(h, data[i]);
      h := x * PRIME % TWO64;
    }
  }

  // ---------------------------------------------------------------- every step is a bijection

  lemma Remainder(x: int, h: State, t: int)
    requires x == h + TWO64 * t
    ensures x % TWO64 == h
  {
  }

  lemma TimesBack(h: State)
    ensures Times(h) * INVERSE % TWO64 == h
  {
    var product: int := h * PRIME;
    var q: int := product / TWO64;
    var r: int := product - q * TWO64;
    assert Times(h) == r;
    assert PRIME * INVERSE == 1 + EXCESS * TWO64;
    Remainder(r * INVERSE, h, h * EXCESS - q * INVERSE);
  }

  /** From where a step ends and the byte it took, where it began; and from where it began and ended, the byte. */
  lemma StepBijective(h: State, b: byte)
    ensures var m: State := Step(h, b) * INVERSE % TWO64; Mix(m, b) == h && Xor(m % 256, h % 256) == b
  {
    hide Xor, Times, Mix;
    TimesBack(Mix(h, b));
    MixBack(h, b);
  }

  lemma StepInjective(g: State, h: State, b: byte, c: byte)
    requires Step(g, b) == Step(h, c)
    ensures b == c ==> g == h
    ensures g == h ==> b == c
  {
    hide Step, Xor, Mix;
    StepBijective(g, b);
    StepBijective(h, c);
  }

  /** Whatever bytes follow, different states stay different. */
  lemma {:induction false} HashInjective(g: State, h: State, data: seq<byte>)
    requires Hash(g, data) == Hash(h, data)
    ensures g == h
    decreases |data|
  {
    hide Step;
    if data != [] {
      HashInjective(Step(g, data[0]), Step(h, data[0]), data[1..]);
      StepInjective(g, h, data[0], data[0]);
    }
  }

  lemma {:induction false} HashAppend(h: State, before: seq<byte>, after: seq<byte>)
    ensures Hash(h, before + after) == Hash(Hash(h, before), after)
    decreases |before|
  {
    hide Step;
    if before == [] {
      assert before + after == after;
    } else {
      assert (before + after)[1..] == before[1..] + after;
      HashAppend(Step(h, before[0]), before[1..], after);
    }
  }

  /** Two byte strings of one length that differ in exactly one place have different hashes. */
  lemma OneByteChangesHash(h: State, a: seq<byte>, b: seq<byte>, k: nat)
    requires |a| == |b| && k < |a| && a[k] != b[k]
    requires forall i :: 0 <= i < |a| && i != k ==> a[i] == b[i]
    ensures Hash(h, a) != Hash(h, b)
  {
    hide Step;
    var before, after := a[..k], a[k + 1..];
    assert a == before + ([a[k]] + after);
    assert b == before + ([b[k]] + after);
    HashAppend(h, before, [a[k]] + after);
    HashAppend(h, before, [b[k]] + after);
    assert ([a[k]] + after)[1..] == after && ([b[k]] + after)[1..] == after;
    var g := Hash(h, before);
    if Hash(h, a) == Hash(h, b) {
      HashInjective(Step(g, a[k]), Step(g, b[k]), after);
      StepInjective(g, g, a[k], b[k]);
    }
  }

  // ---------------------------------------------------------------- the table's text

  /** A command's name, its return class and its parameter classes, as the bytes of their text. */
  datatype Row = Row(name: seq<byte>, ret: seq<byte>, params: seq<byte>)

  const COLON: byte := 58
  const SEMICOLON: byte := 59

  /** Word characters only: neither separator is among them. */
  predicate Words(s: seq<byte>)
  {
    COLON !in s && SEMICOLON !in s
  }

  predicate Proper(r: Row)
  {
    Words(r.name) && Words(r.ret) && Words(r.params)
  }

  function Text(rows: seq<Row>): seq<byte>
  {
    if rows == [] then []
    else rows[0].name + ([COLON] + (rows[0].params + ([COLON] + (rows[0].ret + ([SEMICOLON] + Text(rows[1..]))))))
  }

  function FingerprintOf(rows: seq<Row>): State
  {
    Hash(OFFSET, Text(rows))
  }

  /** A row's text: its name, parameters and return class, ended by ':', ':' and ';', which none of them holds. */
  lemma RowText(r: Row, more: seq<Row>)
    ensures Text([r] + more) == r.name + [58] + r.params + [58] + r.ret + [59] + Text(more) && Text([]) == []
    ensures Proper(r) <==> forall c :: c in r.name || c in r.ret || c in r.params ==> c != 58 && c != 59
  {
    assert ([r] + more)[1..] == more;
  }

  /** What comes before a separator, and what comes after it. */
  function Until(s: seq<byte>, sep: byte): (r: Option<(seq<byte>, seq<byte>)>)
    ensures r.Some? ==> |r.value.1| < |s|
  {
    if s == [] then None
    else if s[0] == sep then Some(([], s[1..]))
    else
      var (w, rest) :- Until(s[1..], sep);
      Some(([s[0]] + w, rest))
  }

  function Parse(s: seq<byte>): Option<seq<Row>>
    decreases |s|
  {
    if s == [] then Some([])
    else
      var (name, s1) :- Until(s, COLON);
      var (params, s2) :- Until(s1, COLON);
      var (ret, s3) :- Until(s2, SEMICOLON);
      var more :- Parse(s3);
      Some([Row(name, ret, params)] + more)
  }

  lemma {:induction false} UntilReads(w: seq<byte>, sep: byte, rest: seq<byte>)
    requires sep !in w
    ensures Until(w + ([sep] + rest), sep) == Some((w, rest))
  {
    var s := w + ([sep] + rest);
    if w == [] {
      assert s[1..] == rest;
    } else {
      assert s[1..] == w[1..] + ([sep] + rest);
      UntilReads(w[1..], sep, rest);
      assert [w[0]] + w[1..] == w;
    }
  }

  lemma {:induction false} TextParses(rows: seq<Row>)
    requires forall i :: 0 <= i < |rows| ==> Proper(rows[i])
    ensures Parse(Text(rows)) == Some(rows)
  {
    hide Until;
    if rows != [] {
      var r, more := rows[0], Text(rows[1..]);
      assert Proper(r);
      var s2 := r.ret + ([SEMICOLON] + more);
      var s1 := r.params + ([COLON] + s2);
      UntilReads(r.name, COLON, s1);
      UntilReads(r.params, COLON, s2);
      UntilReads(r.ret, SEMICOLON, more);
      TextParses(rows[1..]);
      assert [r] + rows[1..] == rows;
    }
  }

  /** Different tables have different texts. */
  lemma TextInjective(a: seq<Row>, b: seq<Row>)
    requires (forall i :: 0 <= i < |a| ==> Proper(a[i])) && (forall i :: 0 <= i < |b| ==> Proper(b[i]))
    requires Text(a) == Text(b)
    ensures a == b
  {
    TextParses(a);
    TextParses(b);
  }

  /** Tables whose texts have one length and differ in one byte have different fingerprints. */
  lemma OneByteChangesFingerprint(a: seq<Row>, b: seq<Row>, k: nat)
    requires |Text(a)| == |Text(b)| && k < |Text(a)| && Text(a)[k] != Text(b)[k]
    requires forall i :: 0 <= i < |Text(a)| && i != k ==> Text(a)[i] == Text(b)[i]
    ensures FingerprintOf(a) != FingerprintOf(b)
  {
    OneByteChangesHash(OFFSET, Text(a), Text(b), k);
  }
}
