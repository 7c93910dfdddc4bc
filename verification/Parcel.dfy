/** The parcel's primitives: what the writer appends and the reader takes, 4-byte aligned throughout. */
module Parcel {
  import opened Wrappers
  import opened Bytes

  datatype Malformed =
    | PastTheEnd | NegativeLength | ArrayTooLong | NullValue | FixedSize
    | ParcelableSize | FieldsPastSize | TooDeep | MissingField | UnknownTag | BadObject

  const MAX_DEPTH := 64
  const TYPE_FD := 0x6664_2a85
  const TYPE_BINDER := 0x7362_2a85
  const TYPE_WEAK_BINDER := 0x7762_2a85
  const TYPE_HANDLE := 0x7368_2a85
  const TYPE_WEAK_HANDLE := 0x7768_2a85

  /** A received parcel: its bytes, the file of each descriptor object, and the objects it listed. */
  datatype Incoming = Incoming(data: seq<byte>, files: map<nat, nat>, listed: set<nat>)

  /** A value read, and the position after it. */
  type Read<T> = Result<(T, nat), Malformed>

  function Signed(n: nat, half: int): (v: int)
    requires n < 2 * half
    ensures -half <= v < half
  {
    if n >= half then n - 2 * half else n
  }

  // ---------------------------------------------------------------- bytes at a position

  /** `bytes` lie at `pos`. */
  ghost predicate At(data: seq<byte>, pos: nat, bytes: seq<byte>)
  {
    pos + |bytes| <= |data| && data[pos..pos + |bytes|] == bytes
  }

  lemma AtSplit(data: seq<byte>, pos: nat, a: seq<byte>, b: seq<byte>)
    requires At(data, pos, a + b)
    ensures At(data, pos, a) && At(data, pos + |a|, b)
  {
    assert data[pos..pos + |a|] == (a + b)[..|a|] == a;
    assert data[pos + |a|..pos + |a| + |b|] == (a + b)[|a|..] == b;
  }

  // ---------------------------------------------------------------- integers

  function I32(v: int): (s: seq<byte>)
    ensures |s| == 4
  {
    Le(v % TWO32, 4)
  }

  function I64(v: int): (s: seq<byte>)
    ensures |s| == 8
  {
    Le(v % TWO64, 8)
  }

  function Take(p: Incoming, pos: nat, n: nat): (r: Read<seq<byte>>)
    ensures r.Ok? ==> |r.value.0| == n && r.value.1 == pos + n <= |p.data|
  {
    if pos + n <= |p.data| then Ok((p.data[pos..pos + n], pos + n)) else Err(PastTheEnd)
  }

  function ReadLe(p: Incoming, pos: nat, width: nat): Read<nat>
  {
    var (bytes, next) :- Take(p, pos, width);
    Ok((FromLe(bytes), next))
  }

  lemma ReadLeAt(p: Incoming, pos: nat, n: nat, width: nat)
    requires n < Pow256(width) && At(p.data, pos, Le(n, width))
    ensures ReadLe(p, pos, width) == Ok((n, pos + width))
  {
    LeRoundTrip(n, width);
  }

  function ReadI32(p: Incoming, pos: nat): Read<int>
  {
    var (n, next) :- ReadLe(p, pos, 4);
    Ok((Fold32(n), next))
  }

  /** The two's complement value of the low 32 bits. */
  function Fold32(v: int): (r: int)
    ensures -0x8000_0000 <= r < 0x8000_0000
  {
    Signed(v % TWO32, 0x8000_0000)
  }

  function ReadI64(p: Incoming, pos: nat): Read<int>
  {
    var (n, next) :- ReadLe(p, pos, 8);
    Ok((Fold64(n), next))
  }

  lemma ReadI32At(p: Incoming, pos: nat, v: int)
    requires -0x8000_0000 <= v < 0x8000_0000 && At(p.data, pos, I32(v))
    ensures ReadI32(p, pos) == Ok((v, pos + 4))
  {
    Powers();
    ReadLeAt(p, pos, v % TWO32, 4);
  }

  lemma ReadI64At(p: Incoming, pos: nat, v: int)
    requires -TWO63 <= v < TWO63 && At(p.data, pos, I64(v))
    ensures ReadI64(p, pos) == Ok((v, pos + 8))
  {
    hide ReadLe, At, Le, Fold64;
    Powers();
    ReadLeAt(p, pos, v % TWO64, 8);
    FoldLow(v);
  }

  lemma FoldLow(v: int)
    requires -TWO63 <= v < TWO63
    ensures Fold64(v % TWO64) == v
  {
  }

  // ---------------------------------------------------------------- lengths, strings, byte arrays

  /** An array's length, -1 (here None) for null: refused when that many elements cannot fit. */
  function ReadLength(p: Incoming, pos: nat, minBytes: nat): Read<Option<nat>>
  {
    var (n, next) :- ReadI32(p, pos);
    if n == -1 then Ok((None, next))
    else if n < 0 then Err(NegativeLength)
    else if n * minBytes > |p.data| - next then Err(ArrayTooLong)
    else Ok((Some(n), next))
  }

  lemma ReadLengthAt(p: Incoming, pos: nat, n: nat, minBytes: nat)
    requires n < 0x8000_0000 && At(p.data, pos, I32(n)) && n * minBytes <= |p.data| - (pos + 4)
    ensures ReadLength(p, pos, minBytes) == Ok((Some(n), pos + 4))
  {
    ReadI32At(p, pos, n);
  }

  lemma ReadNullLengthAt(p: Incoming, pos: nat, minBytes: nat)
    requires At(p.data, pos, I32(-1))
    ensures ReadLength(p, pos, minBytes) == Ok((None, pos + 4))
  {
    ReadI32At(p, pos, -1);
  }

  function ReadPacked(p: Incoming, pos: nat): Read<Option<seq<byte>>>
  {
    var (n, next) :- ReadLength(p, pos, 1);
    match n
    case None => Ok((None, next))
    case Some(len) =>
      var (bytes, end) :- Take(p, next, len);
      Ok((Some(bytes), Align(end)))
  }

  lemma ReadNullPackedAt(p: Incoming, pos: nat)
    requires At(p.data, pos, I32(-1))
    ensures ReadPacked(p, pos) == Ok((None, pos + 4))
  {
    ReadNullLengthAt(p, pos, 1);
  }

  function Packed(bytes: seq<byte>): (s: seq<byte>)
    ensures |s| == 4 + Align(|bytes|)
  {
    I32(|bytes|) + Padded(bytes)
  }

  lemma ReadPackedAt(p: Incoming, pos: nat, bytes: seq<byte>)
    requires |bytes| < 0x8000_0000 && pos % 4 == 0 && At(p.data, pos, Packed(bytes))
    ensures ReadPacked(p, pos) == Ok((Some(bytes), pos + |Packed(bytes)|))
  {
    hide At, Align, I32, Padded, Take;
    LengthThenPadded(p, pos, |bytes|, bytes);
    ReadLengthAt(p, pos, |bytes|, 1);
    hide ReadLength;
  }

  function FromUnits(bytes: seq<byte>): (s: seq<nat>)
    requires |bytes| % 2 == 0
    ensures |s| == |bytes| / 2
  {
    if bytes == [] then [] else [FromLe(bytes[..2])] + FromUnits(bytes[2..])
  }

  lemma {:induction false} UnitsRoundTrip(s: seq<nat>)
    requires forall i :: 0 <= i < |s| ==> s[i] < 0x1_0000
    ensures FromUnits(Units(s)) == s
  {
    if s != [] {
      assert Pow256(1) == 256 && Pow256(2) == 0x1_0000;
      LeRoundTrip(s[0], 2);
      assert Units(s)[..2] == Le(s[0], 2) && Units(s)[2..] == Units(s[1..]);
      UnitsRoundTrip(s[1..]);
    }
  }

  /** A String16: its length in units, the units and a NUL, padded. */
  function Utf16(s: seq<nat>): (bytes: seq<byte>)
    ensures |bytes| == 4 + Align(2 * |s| + 2)
  {
    I32(|s|) + Padded(Units(s) + Le(0, 2))
  }

  function ReadUtf16(p: Incoming, pos: nat): Read<Option<seq<nat>>>
  {
    var (n, next) :- ReadI32(p, pos);
    if n == -1 then Ok((None, next))
    else if n < 0 then Err(NegativeLength)
    else
      var (bytes, end) :- Take(p, next, 2 * n + 2);
      Ok((Some(FromUnits(bytes[..2 * n])), Align(end)))
  }

  lemma ReadUtf16At(p: Incoming, pos: nat, s: seq<nat>)
    requires |s| < 0x8000_0000 && pos % 4 == 0 && At(p.data, pos, Utf16(s))
    requires forall i :: 0 <= i < |s| ==> s[i] < 0x1_0000
    ensures ReadUtf16(p, pos) == Ok((Some(s), pos + |Utf16(s)|))
  {
    hide At, Align, I32, Padded, Units, FromUnits, ReadI32, Take;
    var body := Units(s) + Le(0, 2);
    LengthThenPadded(p, pos, |s|, body);
    UnitsRoundTrip(s);
    assert body[..2 * |s|] == Units(s);
  }

  /** A length, then padded bytes, which end where the alignment of their end is. */
  lemma LengthThenPadded(p: Incoming, pos: nat, n: nat, body: seq<byte>)
    requires n < 0x8000_0000 && pos % 4 == 0 && At(p.data, pos, I32(n) + Padded(body))
    ensures ReadI32(p, pos) == Ok((n, pos + 4)) && Take(p, pos + 4, |body|) == Ok((body, pos + 4 + |body|))
    ensures Align(pos + 4 + |body|) == pos + 4 + Align(|body|)
    ensures At(p.data, pos, I32(n)) && pos + 4 + |body| <= |p.data|
  {
    AtSplit(p.data, pos, I32(n), Padded(body));
    AtSplit(p.data, pos + 4, body, Zeros(Align(|body|) - |body|));
    AlignAdd(pos + 4, |body|);
    ReadI32At(p, pos, n);
  }

  // ---------------------------------------------------------------- objects

  /** A `flat_binder_object`: its type, its flags, its value, its cookie. */
  function Object(kind: nat, flags: nat, value: nat, cookie: nat): (s: seq<byte>)
    ensures |s| == 24
  {
    Le(kind, 4) + (Le(flags, 4) + (Le(value, 8) + Le(cookie, 8)))
  }

  /** Its type and value. */
  function ReadObject(p: Incoming, pos: nat): Read<(nat, nat)>
  {
    var (_, end) :- Take(p, pos, 24);
    var (kind, _) :- ReadLe(p, pos, 4);
    var (value, _) :- ReadLe(p, pos + 8, 8);
    Ok(((kind, value), end))
  }

  lemma ReadObjectAt(p: Incoming, pos: nat, kind: nat, flags: nat, value: nat, cookie: nat)
    requires kind < TWO32 && value < TWO64 && At(p.data, pos, Object(kind, flags, value, cookie))
    ensures ReadObject(p, pos) == Ok(((kind, value), pos + 24))
  {
    Powers();
    AtSplit(p.data, pos, Le(kind, 4), Le(flags, 4) + (Le(value, 8) + Le(cookie, 8)));
    AtSplit(p.data, pos + 4, Le(flags, 4), Le(value, 8) + Le(cookie, 8));
    AtSplit(p.data, pos + 8, Le(value, 8), Le(cookie, 8));
    ReadLeAt(p, pos, kind, 4);
    ReadLeAt(p, pos + 8, value, 8);
  }

  function ReadFileObject(p: Incoming, pos: nat): Read<nat>
  {
    var (found, end) :- ReadObject(p, pos);
    if found.0 != TYPE_FD || pos !in p.files then Err(BadObject) else Ok((p.files[pos], end))
  }

  /** A required descriptor: non-null, no comm channel, the object. The file itself travels beside the bytes. */
  function File(): (s: seq<byte>)
    ensures |s| == 32
  {
    I32(1) + (I32(0) + Object(TYPE_FD, 0x7f, TWO64 - 1, 1))
  }

  function ReadFile(p: Incoming, pos: nat): Read<Option<nat>>
  {
    var (present, p1) :- ReadI32(p, pos);
    if present == 0 then Ok((None, p1))
    else
      var (comm, p2) :- ReadI32(p, p1);
      var (file, p3) :- ReadFileObject(p, p2);
      if comm == 0 then Ok((Some(file), p3))
      else
        var (_, p4) :- ReadFileObject(p, p3);
        Ok((Some(file), p4))
  }

  lemma ReadFileAt(p: Incoming, pos: nat)
    requires At(p.data, pos, File()) && pos + 8 in p.files
    ensures ReadFile(p, pos) == Ok((Some(p.files[pos + 8]), pos + 32))
  {
    AtSplit(p.data, pos, I32(1), I32(0) + Object(TYPE_FD, 0x7f, TWO64 - 1, 1));
    AtSplit(p.data, pos + 4, I32(0), Object(TYPE_FD, 0x7f, TWO64 - 1, 1));
    ReadI32At(p, pos, 1);
    ReadI32At(p, pos + 4, 0);
    ReadObjectAt(p, pos + 8, TYPE_FD, 0x7f, TWO64 - 1, 1);
  }

  /** A strong binder: a handle's object, or the null object, and its stability. */
  function Binder(handle: Option<nat>, stability: int): (s: seq<byte>)
    ensures |s| == 28
  {
    match handle
    case Some(h) => Object(TYPE_HANDLE, 0, h, 0) + I32(stability)
    case None => Object(TYPE_BINDER, 0, 0, 0) + I32(0)
  }

  function ReadBinder(p: Incoming, pos: nat): Read<Option<nat>>
  {
    var (found, p1) :- ReadObject(p, pos);
    var (kind, value) := found;
    if (kind == TYPE_BINDER || kind == TYPE_WEAK_BINDER) && value == 0 then
      var (_, p2) :- ReadI32(p, p1);
      Ok((None, p2))
    else if (kind == TYPE_HANDLE || kind == TYPE_WEAK_HANDLE) && pos in p.listed then
      var (_, p2) :- ReadI32(p, p1);
      Ok((Some(value % TWO32), p2))
    else Err(BadObject)
  }

  lemma ReadBinderAt(p: Incoming, pos: nat, handle: Option<nat>, stability: int)
    requires At(p.data, pos, Binder(handle, stability)) && -0x8000_0000 <= stability < 0x8000_0000
    requires handle.Some? ==> handle.value < TWO32 && pos in p.listed
    ensures ReadBinder(p, pos) == Ok((handle, pos + 28))
  {
    hide At, Object, I32, ReadObject, ReadI32;
    if handle.Some? {
      ObjectThenI32(p, pos, TYPE_HANDLE, handle.value, stability);
    } else {
      ObjectThenI32(p, pos, TYPE_BINDER, 0, 0);
    }
  }

  lemma ObjectThenI32(p: Incoming, pos: nat, kind: nat, value: nat, n: int)
    requires kind < TWO32 && value < TWO64 && -0x8000_0000 <= n < 0x8000_0000
    requires At(p.data, pos, Object(kind, 0, value, 0) + I32(n))
    ensures ReadObject(p, pos) == Ok(((kind, value), pos + 24)) && ReadI32(p, pos + 24) == Ok((n, pos + 28))
  {
    AtSplit(p.data, pos, Object(kind, 0, value, 0), I32(n));
    hide At, Object, I32, ReadObject, ReadI32;
    ReadObjectAt(p, pos, kind, 0, value, 0);
    ReadI32At(p, pos + 24, n);
  }
}
