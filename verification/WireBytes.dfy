/** The wire format spelled out: which bytes stand where, for every type, and what a reader makes of any bytes. */
module WireBytes {
  import opened Wrappers
  import opened Bytes
  import opened Parcel
  import opened Wire

  // ---------------------------------------------------------------- integers

  /** Dropping the low byte of the low `256 * p` leaves the low `p` of what dropping it from the whole leaves. */
  lemma DropByte(v: int, p: nat)
    requires p > 0
    ensures v % (256 * p) % 256 == v % 256 && v % (256 * p) / 256 == v / 256 % p
  {
    var q, n := v / (256 * p), v % (256 * p);
    var a, b := n / 256, n % 256;
    Digits(q, p, a, b);
    assert v == q * (256 * p) + n == (q * p + a) * 256 + b;
    Split(q * p + a, 256, b);
    Split(q, p, a);
  }

  lemma Digits(q: int, p: nat, a: nat, b: nat)
    requires 256 * a + b < 256 * p && b < 256
    ensures q * (256 * p) + 256 * a + b == (q * p + a) * 256 + b && a < p
  {
  }

  /** An int is four bytes, the least significant first; a negative one in two's complement. */
  lemma IntBytes(v: int)
    ensures I32(v) == [v % 256, v / 256 % 256, v / 0x1_0000 % 256, v / 0x100_0000 % 256]
  {
    DropByte(v, 0x100_0000);
    DropByte(v / 256, 0x1_0000);
    DropByte(v / 256 / 256, 0x100);
    FourBytes(v % 0x1_0000_0000, v / 256 % 0x100_0000, v / 256 / 256 % 0x1_0000, v / 256 / 256 / 256 % 0x100);
  }

  lemma FourBytes(n: nat, a: nat, b: nat, c: nat)
    requires a == n / 256 && b == a / 256 && c == b / 256
    ensures Le(n, 4) == [n % 256, a % 256, b % 256, c % 256]
  {
    assert Le(c, 1) == [c % 256] + Le(c / 256, 0);
    assert Le(b, 2) == [b % 256] + Le(c, 1);
    assert Le(a, 3) == [a % 256] + Le(b, 2);
  }

  /** A long is the int of its low half, then that of its high half. */
  lemma LongBytes(v: int)
    ensures I64(v) == I32(v) + I32(v / 0x1_0000_0000)
  {
    LeSplits(v, 4, 4);
    assert Pow256(4) == 0x1_0000_0000 && Pow256(8) == 0x1_0000_0000_0000_0000 by {
      Powers();
    }
  }

  /** The low bytes of an integer are those of its low bytes, and then those of what is left. */
  lemma {:induction false} LeSplits(v: int, a: nat, b: nat)
    ensures Le(v % Pow256(a + b), a + b) == Le(v % Pow256(a), a) + Le(v / Pow256(a) % Pow256(b), b)
    decreases a
  {
    if a > 0 {
      LowByteFirst(v, a + b);
      LowByteFirst(v, a);
      LeSplits(v / 256, a - 1, b);
      DivideTwice(v, Pow256(a - 1));
      hide Le;
      assert Pow256(a) == 256 * Pow256(a - 1);
    }
  }

  lemma LowByteFirst(v: int, w: nat)
    requires w > 0
    ensures Le(v % Pow256(w), w) == [v % 256] + Le(v / 256 % Pow256(w - 1), w - 1)
  {
    DropByte(v, Pow256(w - 1));
  }

  lemma DivideTwice(v: int, p: nat)
    requires p > 0
    ensures v / 256 / p == v / (256 * p)
  {
    var a := v / 256;
    assert v == (a / p * p + a % p) * 256 + v % 256 == a / p * (256 * p) + (256 * (a % p) + v % 256);
    Split(a / p, 256 * p, 256 * (a % p) + v % 256);
  }

  // ---------------------------------------------------------------- strings and byte arrays

  /** Zeros to a multiple of four bytes, and no more than that. */
  lemma PaddedBytes(s: seq<byte>)
    ensures var r := Padded(s);
            && |r| % 4 == 0 && |s| <= |r| <= |s| + 3 && r[..|s|] == s
            && forall i :: |s| <= i < |r| ==> r[i] == 0
  {
  }

  /** A byte array: its length, the bytes, zeros to a multiple of four. */
  lemma PackedBytes(s: seq<byte>)
    ensures var r := Packed(s);
            && r[..4] == I32(|s|) && |r| % 4 == 0 && 4 + |s| <= |r| <= 4 + |s| + 3
            && (forall i :: 0 <= i < |s| ==> r[4 + i] == s[i])
            && forall i :: 4 + |s| <= i < |r| ==> r[i] == 0
  {
    PaddedBytes(s);
    var r := Packed(s);
    assert r[4..] == Padded(s);
    forall i | 0 <= i < |s|
      ensures r[4 + i] == s[i]
    {
      assert r[4 + i] == Padded(s)[..|s|][i];
    }
    forall i | 4 + |s| <= i < |r|
      ensures r[i] == 0
    {
      assert r[i] == r[4..][i - 4];
    }
  }

  lemma {:induction false} UnitBytes(s: seq<nat>, i: nat)
    requires i < |s|
    ensures Units(s)[2 * i] == s[i] % 256 && Units(s)[2 * i + 1] == s[i] / 256 % 256
  {
    assert Le(s[0], 2) == [s[0] % 256] + Le(s[0] / 256, 1) && Le(s[0] / 256, 1)[0] == s[0] / 256 % 256;
    if i > 0 {
      UnitBytes(s[1..], i - 1);
    }
  }

  /** A string: how many UTF-16 units, each unit's low byte and high byte, and a NUL, zeros to a multiple of four. */
  lemma TextBytes(s: seq<nat>)
    ensures var r, n := Utf16(s), |s|;
            && r[..4] == I32(n) && |r| % 4 == 0 && 4 + 2 * n + 2 <= |r| <= 4 + 2 * n + 5
            && (forall i :: 0 <= i < n ==> r[4 + 2 * i] == s[i] % 256 && r[5 + 2 * i] == s[i] / 256 % 256)
            && forall k :: 4 + 2 * n <= k < |r| ==> r[k] == 0
  {
    hide Le, Units, Padded;
    var r, body := Utf16(s), Units(s) + Le(0, 2);
    NulBytes();
    PaddedBytes(body);
    assert r[4..] == Padded(body);
    forall k | 4 + 2 * |s| <= k < |r|
      ensures r[k] == 0
    {
      assert r[k] == Padded(body)[k - 4];
      if k - 4 < |body| {
        assert Padded(body)[k - 4] == Padded(body)[..|body|][k - 4] == Le(0, 2)[k - 4 - 2 * |s|];
      }
    }
    forall i | 0 <= i < |s|
      ensures r[4 + 2 * i] == s[i] % 256 && r[5 + 2 * i] == s[i] / 256 % 256
    {
      UnitBytes(s, i);
      assert r[4 + 2 * i] == Padded(body)[..|body|][2 * i] && r[5 + 2 * i] == Padded(body)[..|body|][2 * i + 1];
    }
  }

  lemma NulBytes()
    ensures Le(0, 2) == [0, 0]
  {
    assert Le(0, 2) == [0] + Le(0, 1);
  }

  // ---------------------------------------------------------------- objects

  /** A required descriptor: present, without a channel, and an object of type `fd*` that accepts file descriptors. */
  lemma DescriptorBytes()
    ensures File() == [1, 0, 0, 0] + [0, 0, 0, 0] + [0x85, 0x2a, 0x64, 0x66] + [0x7f, 0, 0, 0]
                      + [0xff, 0xff, 0xff, 0xff, 0xff, 0xff, 0xff, 0xff] + [1, 0, 0, 0, 0, 0, 0, 0]
  {
    hide Le;
    IntBytes(0);
    IntBytes(1);
    IntBytes(-1);
    LongBytes(1);
    LongBytes(-1);
    IntBytes(0x7f);
    IntBytes(0x6664_2a85);
    assert I64(-1) == Le(TWO64 - 1, 8);
  }

  /** A handle is an object of type `sh*`; then the stability. */
  lemma HandleBytes(handle: nat, stability: int)
    requires handle < 0x1_0000_0000
    ensures Binder(Some(handle), stability) ==
            [0x85, 0x2a, 0x68, 0x73] + [0, 0, 0, 0] + I32(handle) + [0, 0, 0, 0] + [0, 0, 0, 0, 0, 0, 0, 0] +
              I32(stability)
  {
    hide Le;
    IntBytes(0);
    LongBytes(0);
    LongBytes(handle);
    IntBytes(0x7368_2a85);
  }

  /** No binder is an object of type `sb*` that is otherwise zeros. */
  lemma NullBinderBytes(stability: int)
    ensures Binder(None, stability) == [0x85, 0x2a, 0x62, 0x73] + Zeros(24)
  {
    hide Le;
    IntBytes(0);
    LongBytes(0);
    IntBytes(0x7362_2a85);
  }

  // ---------------------------------------------------------------- what each type's values are

  /** The values of a primitive or enum type are the integers of its width; a float's are its bits. */
  lemma NumbersExactly(w: Schema, n: int)
    ensures HasType(w, TPrim(Boolean), Num(n)) <==> n == 0 || n == 1
    ensures HasType(w, TPrim(Byte), Num(n)) <==> -128 <= n <= 127
    ensures HasType(w, TPrim(Char), Num(n)) <==> 0 <= n <= 0xffff
    ensures HasType(w, TPrim(Int), Num(n)) <==> -0x8000_0000 <= n <= 0x7fff_ffff
    ensures HasType(w, TPrim(Long), Num(n)) <==> -0x8000_0000_0000_0000 <= n <= 0x7fff_ffff_ffff_ffff
    ensures HasType(w, TPrim(Float), Num(n)) <==> 0 <= n <= 0xffff_ffff
    ensures HasType(w, TPrim(Double), Num(n)) <==> 0 <= n <= 0xffff_ffff_ffff_ffff
    ensures HasType(w, TEnum(BackedByByte), Num(n)) <==> HasType(w, TPrim(Byte), Num(n))
    ensures HasType(w, TEnum(BackedByInt), Num(n)) <==> HasType(w, TPrim(Int), Num(n))
    ensures HasType(w, TEnum(BackedByLong), Num(n)) <==> HasType(w, TPrim(Long), Num(n))
  {
  }

  /** A string's values are the lists of UTF-16 units, a descriptor's the files, a binder's the 32-bit handles. */
  lemma LeavesExactly(w: Schema, nullable: bool, v: Value)
    ensures HasType(w, TString(nullable), v) <==>
            || (v.Text? && forall i :: 0 <= i < |v.units| ==> v.units[i] <= 0xffff)
            || (v == Null && nullable)
    ensures HasType(w, TFile(nullable), v) <==> v.FileOf? || (v == Null && nullable)
    ensures HasType(w, TBinder(nullable), v) <==> (v.Handle? && v.handle <= 0xffff_ffff) || (v == Null && nullable)
  {
  }

  /** Null is a value of exactly the nullable types, a declared one where it is of a parcelable or a union. */
  lemma NullExactly(w: Schema, nullable: bool, name: string, elem: Type, fixed: Option<nat>)
    ensures HasType(w, TNamed(name, nullable), Null) <==> nullable && name in w
    ensures HasType(w, TArray(elem, nullable, fixed), Null) <==> nullable
    ensures forall p :: !HasType(w, TPrim(p), Null)
    ensures forall b :: !HasType(w, TEnum(b), Null)
  {
  }

  /** The elements of an array are its type's values, but for those of a byte array, which are unsigned. */
  lemma {:induction false} ElementsExactly(w: Schema, elem: Type, nullable: bool, vs: seq<Value>)
    ensures HasType(w, TArray(elem, nullable, None), Items(vs)) <==>
            forall i :: 0 <= i < |vs| ==>
                          if elem == TPrim(Byte) then vs[i].Num? && 0 <= vs[i].n <= 255 else HasType(w, elem, vs[i])
    ensures forall n :: HasType(w, TArray(elem, nullable, Some(n)), Items(vs)) <==>
                        |vs| == n && HasType(w, TArray(elem, nullable, None), Items(vs))
  {
    hide HasBody;
    AllExactly(w, elem, vs);
  }

  lemma {:induction false} AllExactly(w: Schema, elem: Type, vs: seq<Value>)
    ensures AllHaveType(w, elem, vs) <==> forall i :: 0 <= i < |vs| ==> HasType(w, elem, vs[i])
  {
    hide HasType;
    if vs != [] {
      AllExactly(w, elem, vs[1..]);
      assert forall i :: 0 < i < |vs| ==> vs[i] == vs[1..][i - 1];
      assert forall i :: 0 <= i < |vs| - 1 ==> vs[1..][i] == vs[i + 1];
    }
  }

  /** A parcelable has a value for each field, a union one for the field its tag names. */
  lemma {:induction false} BodiesExactly(w: Schema, fields: seq<Field>, v: Value)
    ensures HasBody(w, Parcelable(fields), v) <==>
            v.Record? && |v.fields| == |fields| &&
            forall i :: 0 <= i < |fields| ==> HasType(w, fields[i].ty, v.fields[i])
    ensures HasBody(w, Union(fields), v) <==>
            v.Variant? && v.tag < |fields| && v.tag <= 0x7fff_ffff && HasType(w, fields[v.tag].ty, v.value)
  {
    hide HasType;
    if v.Record? {
      FieldsExactly(w, fields, v.fields);
    }
  }

  lemma {:induction false} FieldsExactly(w: Schema, fields: seq<Field>, vs: seq<Value>)
    ensures FieldsHaveType(w, fields, vs) <==>
            |vs| == |fields| && forall i :: 0 <= i < |fields| ==> HasType(w, fields[i].ty, vs[i])
  {
    hide HasType;
    if vs != [] && |vs| == |fields| {
      FieldsExactly(w, fields[1..], vs[1..]);
      assert forall i :: 0 < i < |vs| ==> vs[i] == vs[1..][i - 1] && fields[i] == fields[1..][i - 1];
      assert forall i :: 0 <= i < |vs| - 1 ==> vs[1..][i] == vs[i + 1] && fields[1..][i] == fields[i + 1];
    }
  }

  // ---------------------------------------------------------------- what is written for each type

  /** A long, a double and an enumerator of a long are eight bytes, every other number four. */
  lemma NumbersWritten(w: Schema, ty: Type, n: int)
    requires (ty.TPrim? || ty.TEnum?) && HasType(w, ty, Num(n))
    ensures Write(w, ty, Num(n)) ==
            if ty == TPrim(Long) || ty == TPrim(Double) || ty == TEnum(BackedByLong) then I64(n) else I32(n)
  {
    hide Le;
  }

  /** A null is the length -1 for a string or an array, the marker 0 for a parcelable, a union or a descriptor. */
  lemma NullsWritten(w: Schema, ty: Type)
    requires HasType(w, ty, Null)
    ensures ty.TString? || ty.TArray? ==> Write(w, ty, Null) == [0xff, 0xff, 0xff, 0xff]
    ensures ty.TNamed? || ty.TFile? ==> Write(w, ty, Null) == [0, 0, 0, 0]
    ensures ty.TBinder? ==> Write(w, ty, Null) == Binder(None, 0)
    ensures match ty
            case TString(nullable) => nullable
            case TFile(nullable) => nullable
            case TBinder(nullable) => nullable
            case TNamed(_, nullable) => nullable
            case TArray(_, nullable, _) => nullable
            case _ => false
  {
    hide Le, HasBody, WriteBody, AllHaveType, WriteItems;
    IntBytes(-1);
    IntBytes(0);
  }

  function Joined(parts: seq<seq<byte>>): seq<byte>
  {
    if parts == [] then [] else parts[0] + Joined(parts[1..])
  }

  /**
   * An array of bytes, or of enumerators backed by a byte, is packed: its length, a byte for each
   * element, zeros to a multiple of four. Any other is its length and what is written for each element.
   */
  lemma ArrayWritten(w: Schema, ty: Type, v: Value)
    requires ty.TArray? && v.Items? && HasType(w, ty, v)
    ensures var elem, vs, r := ty.elem, v.items, Write(w, ty, v);
            if elem == TPrim(Byte) || elem == TEnum(BackedByByte) then
              && 4 + |vs| <= |r| <= 4 + |vs| + 3 && |r| % 4 == 0 && r[..4] == I32(|vs|)
              && (forall i :: 0 <= i < |vs| ==> vs[i].Num? && r[4 + i] == vs[i].n % 256)
              && forall i :: 4 + |vs| <= i < |r| ==> r[i] == 0
            else
              && (forall i :: 0 <= i < |vs| ==> HasType(w, elem, vs[i]))
              && r == I32(|vs|) + Joined(seq(|vs|, i requires 0 <= i < |vs| && HasType(w, elem, vs[i]) =>
                                                     Write(w, elem, vs[i])))
  {
    hide Packed, I32, HasBody, AllHaveType, WriteItems;
    var bytes := ItemBytes(v.items);
    if ty.elem == TPrim(Byte) || ty.elem == TEnum(BackedByByte) {
      PackedBytes(bytes);
      assert Write(w, ty, v) == Packed(bytes);
      assert forall i :: 0 <= i < |v.items| ==> Packed(bytes)[4 + i] == bytes[i] == v.items[i].n % 256;
    } else {
      ItemsWritten(w, ty.elem, v.items);
    }
  }

  lemma {:induction false} ItemsWritten(w: Schema, elem: Type, vs: seq<Value>)
    requires AllHaveType(w, elem, vs)
    ensures forall i :: 0 <= i < |vs| ==> HasType(w, elem, vs[i])
    ensures WriteItems(w, elem, vs) ==
            Joined(seq(|vs|, i requires 0 <= i < |vs| && HasType(w, elem, vs[i]) => Write(w, elem, vs[i])))
  {
    AllExactly(w, elem, vs);
    hide HasType, Write;
    if vs != [] {
      ItemsWritten(w, elem, vs[1..]);
      var parts := seq(|vs|, i requires 0 <= i < |vs| && HasType(w, elem, vs[i]) => Write(w, elem, vs[i]));
      var rest := seq(|vs| - 1, i requires 0 <= i < |vs| - 1 && HasType(w, elem, vs[1..][i]) =>
                                  Write(w, elem, vs[1..][i]));
      assert parts[1..] == rest;
    }
  }

  /**
   * A parcelable is the marker 1, the size of all that follows counting itself, and what is written for
   * each field in turn; a union the marker 1, its tag and what is written for that field.
   */
  lemma NamedWritten(w: Schema, name: string, nullable: bool, v: Value)
    requires HasType(w, TNamed(name, nullable), v) && !v.Null?
    ensures name in w && HasBody(w, w[name], v)
    ensures match w[name]
            case Parcelable(fields) =>
              && |v.fields| == |fields| && (forall i :: 0 <= i < |fields| ==> HasType(w, fields[i].ty, v.fields[i]))
              && var body := Joined(seq(|fields|, i requires 0 <= i < |fields| &&
                                                             HasType(w, fields[i].ty, v.fields[i]) =>
                                                    Write(w, fields[i].ty, v.fields[i])));
                 Write(w, TNamed(name, nullable), v) == [1, 0, 0, 0] + (I32(4 + |body|) + body)
            case Union(fields) =>
              Write(w, TNamed(name, nullable), v) == [1, 0, 0, 0] + (I32(v.tag) + Write(w, fields[v.tag].ty, v.value))
  {
    IntBytes(1);
    hide I32, FieldsHaveType, WriteFields;
    if w[name].Parcelable? {
      FieldsWritten(w, w[name].fields, v.fields);
      hide HasType, Joined;
    }
  }

  lemma {:induction false} FieldsWritten(w: Schema, fields: seq<Field>, vs: seq<Value>)
    requires FieldsHaveType(w, fields, vs)
    ensures |vs| == |fields| && forall i :: 0 <= i < |fields| ==> HasType(w, fields[i].ty, vs[i])
    ensures WriteFields(w, fields, vs) ==
            Joined(seq(|fields|, i requires 0 <= i < |fields| && HasType(w, fields[i].ty, vs[i]) =>
                                   Write(w, fields[i].ty, vs[i])))
  {
    FieldsExactly(w, fields, vs);
    hide HasType, Write;
    if vs != [] {
      FieldsWritten(w, fields[1..], vs[1..]);
      var parts := seq(|fields|, i requires 0 <= i < |fields| && HasType(w, fields[i].ty, vs[i]) =>
                                   Write(w, fields[i].ty, vs[i]));
      var rest := seq(|vs| - 1, i requires 0 <= i < |vs| - 1 && HasType(w, fields[1..][i].ty, vs[1..][i]) =>
                                  Write(w, fields[1..][i].ty, vs[1..][i]));
      assert parts[1..] == rest;
    }
  }

  // ---------------------------------------------------------------- what is made of any bytes

  /** With fewer than four bytes left nothing can be read. */
  lemma NothingPastTheEnd(r: Schema, p: Incoming, ty: Type, pos: nat)
    requires pos + 4 > |p.data|
    ensures ReadValue(r, p, ty, pos, 0) == Err(PastTheEnd)
  {
  }

  /** A number is read from any bytes: a boolean from any int, a byte from the low 8 bits of one, a char from 16. */
  lemma NumbersRead(p: Incoming, prim: Prim, n: int, pos: nat)
    requires -0x8000_0000 <= n <= 0x7fff_ffff && At(p.data, pos, I32(n)) && prim != Long && prim != Double
    ensures exists m :: ReadPrim(p, prim, pos) == Ok((Num(m), pos + 4)) && ReadAs(prim, n, m)
  {
    hide At, Le, I32, ReadI32, ReadLe;
    ReadI32At(p, pos, n);
    if prim == Float {
      ReadI32Bits(p, pos, n);
    }
    var m := if prim == Boolean then (if n != 0 then 1 else 0)
    else if prim == Byte then Signed(n % 0x100, 0x80)
    else if prim == Char then n % 0x1_0000
    else if prim == Int then n
    else n % TWO32;
    assert ReadPrim(p, prim, pos) == Ok((Num(m), pos + 4));
    Residues(n);
  }

  predicate ReadAs(prim: Prim, n: int, m: int)
  {
    && (prim == Boolean ==> m == if n == 0 then 0 else 1)
    && (prim == Byte ==> -128 <= m <= 127 && (m - n) % 256 == 0)
    && (prim == Char ==> 0 <= m <= 0xffff && (m - n) % 0x1_0000 == 0)
    && (prim == Int ==> m == n)
    && (prim == Float ==> 0 <= m <= 0xffff_ffff && (m - n) % 0x1_0000_0000 == 0)
  }

  lemma Residues(n: int)
    ensures (Signed(n % 0x100, 0x80) - n) % 256 == 0 && (n % 0x1_0000 - n) % 0x1_0000 == 0
    ensures (n % 0x1_0000_0000 - n) % 0x1_0000_0000 == 0
  {
    Residue(n, 0x100);
    Residue(n, 0x1_0000);
    Residue(n, 0x1_0000_0000);
    Split(-(n / 256) - 1, 256, 0);
  }

  lemma Residue(n: int, p: nat)
    requires p > 0
    ensures (n % p - n) % p == 0
  {
    assert n % p - n == -(n / p) * p;
    Split(-(n / p), p, 0);
  }

  lemma ReadI32Bits(p: Incoming, pos: nat, n: int)
    requires At(p.data, pos, I32(n))
    ensures ReadLe(p, pos, 4) == Ok((n % 0x1_0000_0000, pos + 4))
  {
    Powers();
    ReadLeAt(p, pos, n % TWO32, 4);
  }

  /** The bytes an element takes at least: one where the array is packed, eight for a long or a double, else four. */
  function Least(elem: Type): nat
  {
    if elem == TPrim(Byte) || elem == TEnum(BackedByByte) then 1
    else if elem == TPrim(Long) || elem == TPrim(Double) || elem == TEnum(BackedByLong) then 8
    else 4
  }

  /** An array of length -1 is null; any other negative length, or more elements than can fit, is refused. */
  lemma LengthsRead(r: Schema, p: Incoming, elem: Type, n: int, pos: nat, depth: nat)
    requires -0x8000_0000 <= n <= 0x7fff_ffff && At(p.data, pos, I32(n)) && depth <= 64
    ensures var got := ReadArray(r, p, elem, pos, depth);
            && (n == -1 ==> got == Ok((Null, pos + 4)))
            && (n < -1 ==> got == Err(NegativeLength))
            && (n * Least(elem) > |p.data| - (pos + 4) ==> got == Err(ArrayTooLong))
            && (got.Ok? && n >= 0 ==> got.value.0.Items? && |got.value.0.items| == n)
  {
    LengthTaken(p, n, Least(elem), pos);
    LeastIs(elem);
    hide At, I32, ReadLength, ReadValue, MinBytes, Least;
    if n >= 0 && !(elem == TPrim(Byte) || elem == TEnum(BackedByByte)) && ReadLength(p, pos, Least(elem)).Ok? {
      AsManyRead(r, p, elem, n, pos + 4, depth);
    }
  }

  lemma LeastIs(elem: Type)
    ensures Least(elem) == if elem == TPrim(Byte) || elem == TEnum(BackedByByte) then 1 else MinBytes(elem)
  {
  }

  lemma LengthTaken(p: Incoming, n: int, least: nat, pos: nat)
    requires -0x8000_0000 <= n <= 0x7fff_ffff && At(p.data, pos, I32(n))
    ensures ReadLength(p, pos, least) ==
            if n == -1 then Ok((None, pos + 4))
            else if n < 0 then Err(NegativeLength)
            else if n * least > |p.data| - (pos + 4) then Err(ArrayTooLong)
            else Ok((Some(n), pos + 4))
    ensures n < 0 ==> n * least <= |p.data| - (pos + 4)
  {
    InRange(p.data, pos, I32(n));
    hide At, I32, ReadI32;
    ReadI32At(p, pos, n);
    if n < 0 {
      assert n * least <= 0;
    }
  }

  lemma {:induction false} AsManyRead(r: Schema, p: Incoming, elem: Type, n: nat, pos: nat, depth: nat)
    requires depth <= 64
    ensures var got := ReadItems(r, p, elem, n, pos, depth); got.Ok? ==> |got.value.0| == n
    decreases n
  {
    hide ReadValue;
    if n > 0 {
      var got := ReadValue(r, p, elem, pos, depth);
      if got.Ok? {
        AsManyRead(r, p, elem, n - 1, got.value.1, depth);
      }
    }
  }

  /** A null is refused for every type that is not nullable, and read for every one that is. */
  lemma NullsRead(r: Schema, p: Incoming, ty: Type, pos: nat, depth: nat)
    requires depth <= 64
    requires match ty
             case TString(_) => At(p.data, pos, [0xff, 0xff, 0xff, 0xff])
             case TArray(_, _, _) => At(p.data, pos, [0xff, 0xff, 0xff, 0xff])
             case TNamed(_, _) => At(p.data, pos, [0, 0, 0, 0])
             case TFile(_) => At(p.data, pos, [0, 0, 0, 0])
             case TBinder(_) => At(p.data, pos, [0x85, 0x2a, 0x62, 0x73] + Zeros(24))
             case _ => false
    ensures ReadValue(r, p, ty, pos, depth) ==
            if ty.nullable then Ok((Null, pos + if ty.TBinder? then 28 else 4)) else Err(NullValue)
  {
    hide At, Le, I32, ReadI32, Binder, ReadBinder, ReadLength, ReadItems, ReadBody;
    IntBytes(-1);
    IntBytes(0);
    match ty
    case TString(_) => ReadI32At(p, pos, -1);
    case TArray(elem, _, _) =>
      ReadNullPackedAt(p, pos);
      ReadNullLengthAt(p, pos, MinBytes(elem));
    case TBinder(_) =>
      NullBinderBytes(0);
      ReadBinderAt(p, pos, None, 0);
    case _ => ReadI32At(p, pos, 0);
  }

  /** A fixed-size array of another length is refused. */
  lemma FixedRead(r: Schema, p: Incoming, elem: Type, nullable: bool, n: nat, pos: nat, depth: nat)
    requires depth <= 64
    ensures var any, fixed := ReadValue(r, p, TArray(elem, nullable, None), pos, depth),
                              ReadValue(r, p, TArray(elem, nullable, Some(n)), pos, depth);
            fixed == if any.Ok? && any.value.0.Items? && |any.value.0.items| != n then Err(FixedSize) else any
  {
    hide ReadArray;
  }

  /** Any marker but 0 says a value follows, which is refused 64 deep, or where its type is unknown. */
  lemma MarkersRead(r: Schema, p: Incoming, name: string, nullable: bool, n: int, pos: nat, depth: nat)
    requires -0x8000_0000 <= n <= 0x7fff_ffff && At(p.data, pos, I32(n)) && depth <= 64 && n != 0
    ensures ReadValue(r, p, TNamed(name, nullable), pos, depth) ==
            if name !in r then Err(UnknownTag)
            else if depth == 64 then Err(TooDeep)
            else ReadBody(r, p, r[name], pos + 4, depth + 1)
  {
    hide At, I32, ReadI32, ReadBody;
    ReadI32At(p, pos, n);
  }

  /**
   * A parcelable's size is at least 4 and within the parcel, its fields are read from after it and may
   * not pass it, and what follows is read from where it ends, whether or not the fields reach there.
   */
  lemma SizesRead(r: Schema, p: Incoming, fields: seq<Field>, size: int, pos: nat, depth: nat)
    requires -0x8000_0000 <= size <= 0x7fff_ffff && At(p.data, pos, I32(size)) && depth <= 64
    ensures var got := ReadBody(r, p, Parcelable(fields), pos, depth);
            if size < 4 || pos + size > |p.data| then got == Err(ParcelableSize)
            else
              match ReadFields(r, p, fields, pos + size, pos + 4, depth)
              case Err(e) => got == Err(e)
              case Ok((vs, end)) =>
                got == if end > pos + size then Err(FieldsPastSize) else Ok((Record(vs), pos + size))
  {
    hide At, I32, ReadI32, ReadFields;
    ReadI32At(p, pos, size);
  }

  /** A union's tag that names no field is refused. */
  lemma TagsRead(r: Schema, p: Incoming, fields: seq<Field>, tag: int, pos: nat, depth: nat)
    requires -0x8000_0000 <= tag <= 0x7fff_ffff && At(p.data, pos, I32(tag)) && depth <= 64
    ensures tag < 0 || tag >= |fields| ==> ReadBody(r, p, Union(fields), pos, depth) == Err(UnknownTag)
  {
    hide At, I32, ReadI32;
    ReadI32At(p, pos, tag);
  }

  /** A binder is a listed handle, weak or strong, or a null one, weak or strong; any other object is refused. */
  lemma BindersRead(p: Incoming, kind: nat, flags: nat, value: nat, cookie: nat, stability: int, pos: nat)
    requires kind < 0x1_0000_0000 && value < 0x1_0000_0000_0000_0000 && -0x8000_0000 <= stability <= 0x7fff_ffff
    requires At(p.data, pos, Object(kind, flags, value, cookie) + I32(stability))
    ensures ReadBinder(p, pos) ==
            if kind in {0x7362_2a85, 0x7762_2a85} && value == 0 then Ok((None, pos + 28))
            else if kind in {0x7368_2a85, 0x7768_2a85} && pos in p.listed then
              Ok((Some(value % 0x1_0000_0000), pos + 28))
            else Err(BadObject)
  {
    AtSplit(p.data, pos, Object(kind, flags, value, cookie), I32(stability));
    hide At, Object, I32, ReadObject, ReadI32;
    ReadObjectAt(p, pos, kind, flags, value, cookie);
    ReadI32At(p, pos + 24, stability);
  }

  /** A descriptor is present for any marker but 0; its channel, where it has one, is a descriptor too. */
  lemma DescriptorsRead(p: Incoming, present: int, channel: int, pos: nat)
    requires -0x8000_0000 <= present <= 0x7fff_ffff && -0x8000_0000 <= channel <= 0x7fff_ffff && present != 0
    requires At(p.data, pos, I32(present) + I32(channel))
    ensures var first := ReadFileObject(p, pos + 8);
            ReadFile(p, pos) ==
            if first.Err? then Err(first.error)
            else if channel == 0 then Ok((Some(first.value.0), first.value.1))
            else
              match ReadFileObject(p, pos + 32)
              case Err(e) => Err(e)
              case Ok((_, end)) => Ok((Some(first.value.0), end))
  {
    AtSplit(p.data, pos, I32(present), I32(channel));
    hide At, I32, ReadI32;
    ReadI32At(p, pos, present);
    ReadI32At(p, pos + 4, channel);
  }

  /** An object is a descriptor where its type says so and the transaction carries a file for it. */
  lemma DescriptorObjectsRead(p: Incoming, kind: nat, flags: nat, value: nat, cookie: nat, pos: nat)
    requires kind < 0x1_0000_0000 && value < 0x1_0000_0000_0000_0000
    requires At(p.data, pos, Object(kind, flags, value, cookie))
    ensures ReadFileObject(p, pos) ==
            if kind == 0x6664_2a85 && pos in p.files then Ok((p.files[pos], pos + 24)) else Err(BadObject)
  {
    hide At, Object, ReadObject;
    ReadObjectAt(p, pos, kind, flags, value, cookie);
  }
}
