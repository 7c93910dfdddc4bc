/**
 * The generated read and write schemes for every resolved AIDL type. What a writer of one version
 * sends, a reader of the same or another version reads back, field for field.
 */
module Wire {
  import opened Wrappers
  import opened Bytes
  import opened Parcel

  // ---------------------------------------------------------------- types and values

  datatype Prim = Boolean | Byte | Char | Int | Long | Float | Double

  datatype Backing = BackedByByte | BackedByInt | BackedByLong

  datatype Type =
    | TPrim(prim: Prim)
    | TString(nullable: bool)
    | TFile(nullable: bool)
    | TBinder(nullable: bool)
    | TEnum(backing: Backing)
    | TNamed(name: string, nullable: bool)
    | TArray(elem: Type, nullable: bool, fixed: Option<nat>)

  datatype Value =
    | Null
    | Num(n: int)
    | Text(units: seq<nat>)
    | FileOf(file: nat)
    | Handle(handle: nat)
    | Items(items: seq<Value>)
    | Record(fields: seq<Value>)
    | Variant(tag: nat, value: Value)

  /** A field, and what it is when an older writer did not send it. */
  datatype Field = Field(ty: Type, default: Option<Value>)

  datatype Decl = Parcelable(fields: seq<Field>) | Union(fields: seq<Field>)

  type Schema = map<string, Decl>

  /** Lengths are 32-bit: no parcel is longer. */
  const MAX_PARCEL := 0x8000_0000

  predicate PrimRange(p: Prim, n: int)
  {
    match p
    case Boolean => n == 0 || n == 1
    case Byte => -0x80 <= n < 0x80
    case Char => 0 <= n < 0x1_0000
    case Int => -0x8000_0000 <= n < 0x8000_0000
    case Long => -TWO63 <= n < TWO63
    case Float => 0 <= n < TWO32      // the bits
    case Double => 0 <= n < TWO64     // the bits
  }

  function BackingPrim(b: Backing): Prim
  {
    match b
    case BackedByByte => Byte
    case BackedByInt => Int
    case BackedByLong => Long
  }

  /** Arrays of these are packed one byte an element. A byte[] is unsigned in the generated code. */
  predicate IsPacked(elem: Type)
  {
    elem == TPrim(Byte) || elem == TEnum(BackedByByte)
  }

  predicate PackedRange(elem: Type, n: int)
  {
    if elem == TPrim(Byte) then 0 <= n < 0x100 else -0x80 <= n < 0x80
  }

  /** The bytes one element of an array is at least, which bounds the array's length before it is read. */
  function MinBytes(elem: Type): nat
  {
    match elem
    case TPrim(Long) => 8
    case TPrim(Double) => 8
    case TEnum(BackedByLong) => 8
    case _ => 4
  }

  predicate HasType(w: Schema, ty: Type, v: Value)
    decreases v, 1
  {
    match ty
    case TPrim(p) => v.Num? && PrimRange(p, v.n)
    case TEnum(b) => v.Num? && PrimRange(BackingPrim(b), v.n)
    case TString(nullable) => (v.Text? && forall i :: 0 <= i < |v.units| ==> v.units[i] < 0x1_0000) ||
      (nullable && v.Null?)
    case TFile(nullable) => v.FileOf? || (nullable && v.Null?)
    case TBinder(nullable) => (v.Handle? && v.handle < TWO32) || (nullable && v.Null?)
    case TNamed(name, nullable) =>
      name in w && (if v.Null? then nullable else HasBody(w, w[name], v))
    case TArray(elem, nullable, fixed) =>
      if v.Null? then nullable
      else v.Items? && (fixed.Some? ==> |v.items| == fixed.value) &&
           if IsPacked(elem) then forall i :: 0 <= i < |v.items| ==> v.items[i].Num? && PackedRange(elem, v.items[i].n)
           else AllHaveType(w, elem, v.items)
  }

  predicate HasBody(w: Schema, d: Decl, v: Value)
    decreases v, 0
  {
    match d
    case Parcelable(fields) => v.Record? && FieldsHaveType(w, fields, v.fields)
    case Union(fields) => v.Variant? && v.tag < |fields| && v.tag < 0x8000_0000 && HasType(w, fields[v.tag].ty, v.value)
  }

  predicate AllHaveType(w: Schema, elem: Type, vs: seq<Value>)
    decreases vs
  {
    vs == [] || (HasType(w, elem, vs[0]) && AllHaveType(w, elem, vs[1..]))
  }

  predicate FieldsHaveType(w: Schema, fields: seq<Field>, vs: seq<Value>)
    decreases vs
  {
    |fields| == |vs| && (vs == [] || (HasType(w, fields[0].ty, vs[0]) && FieldsHaveType(w, fields[1..], vs[1..])))
  }

  // ---------------------------------------------------------------- writing

  function WritePrim(p: Prim, n: int): seq<byte>
  {
    match p
    case Long => I64(n)
    case Float => Le(n % TWO32, 4)
    case Double => Le(n % TWO64, 8)
    case _ => I32(n)
  }

  function Write(w: Schema, ty: Type, v: Value): seq<byte>
    requires HasType(w, ty, v)
    decreases v, 1
  {
    match ty
    case TPrim(p) => WritePrim(p, v.n)
    case TEnum(b) => WritePrim(BackingPrim(b), v.n)
    case TString(_) => if v.Null? then I32(-1) else Utf16(v.units)
    case TFile(_) => if v.Null? then I32(0) else File()
    case TBinder(_) => if v.Null? then Binder(None, 0) else Binder(Some(v.handle), 0)
    case TNamed(name, _) => if v.Null? then I32(0) else I32(1) + WriteBody(w, w[name], v)
    case TArray(elem, _, _) =>
      if v.Null? then I32(-1)
      else if IsPacked(elem) then Packed(ItemBytes(v.items))
      else I32(|v.items|) + WriteItems(w, elem, v.items)
  }

  function ItemBytes(vs: seq<Value>): seq<byte>
  {
    seq(|vs|, i requires 0 <= i < |vs| => if vs[i].Num? then vs[i].n % 256 else 0)
  }

  /** A parcelable's body is its size, counting itself, and its fields; a union's its tag and the field. */
  function WriteBody(w: Schema, d: Decl, v: Value): seq<byte>
    requires HasBody(w, d, v)
    decreases v, 0
  {
    match d
    case Parcelable(fields) =>
      var body := WriteFields(w, fields, v.fields);
      I32(4 + |body|) + body
    case Union(fields) => I32(v.tag) + Write(w, fields[v.tag].ty, v.value)
  }

  function WriteItems(w: Schema, elem: Type, vs: seq<Value>): seq<byte>
    requires AllHaveType(w, elem, vs)
    decreases vs
  {
    if vs == [] then [] else Write(w, elem, vs[0]) + WriteItems(w, elem, vs[1..])
  }

  function WriteFields(w: Schema, fields: seq<Field>, vs: seq<Value>): seq<byte>
    requires FieldsHaveType(w, fields, vs)
    decreases vs
  {
    if vs == [] then [] else Write(w, fields[0].ty, vs[0]) + WriteFields(w, fields[1..], vs[1..])
  }

  // ---------------------------------------------------------------- reading

  function ReadPrim(p: Incoming, prim: Prim, pos: nat): Read<Value>
  {
    match prim
    case Long => var (n, next) :- ReadI64(p, pos); Ok((Num(n), next))
    case Float => var (n, next) :- ReadLe(p, pos, 4); Ok((Num(n), next))
    case Double => var (n, next) :- ReadLe(p, pos, 8); Ok((Num(n), next))
    case Boolean => var (n, next) :- ReadI32(p, pos); Ok((Num(if n != 0 then 1 else 0), next))
    case Byte => var (n, next) :- ReadI32(p, pos); Ok((Num(Signed(n % 0x100, 0x80)), next))
    case Char => var (n, next) :- ReadI32(p, pos); Ok((Num(n % 0x1_0000), next))
    case Int => var (n, next) :- ReadI32(p, pos); Ok((Num(n), next))
  }

  /** A null where the type allows none is malformed. */
  function Required(v: Value, nullable: bool, pos: nat): Read<Value>
  {
    if v.Null? && !nullable then Err(NullValue) else Ok((v, pos))
  }

  function ReadValue(r: Schema, p: Incoming, ty: Type, pos: nat, depth: nat): Read<Value>
    requires depth <= MAX_DEPTH
    decreases MAX_DEPTH - depth, 0, ty, 0
  {
    match ty
    case TPrim(prim) => ReadPrim(p, prim, pos)
    case TEnum(b) => ReadPrim(p, BackingPrim(b), pos)
    case TString(nullable) =>
      var (s, next) :- ReadUtf16(p, pos);
      Required(match s case None => Null case Some(units) => Text(units), nullable, next)
    case TFile(nullable) =>
      var (f, next) :- ReadFile(p, pos);
      Required(match f case None => Null case Some(file) => FileOf(file), nullable, next)
    case TBinder(nullable) =>
      var (b, next) :- ReadBinder(p, pos);
      Required(match b case None => Null case Some(handle) => Handle(handle), nullable, next)
    case TNamed(name, nullable) =>
      var (marker, next) :- ReadI32(p, pos);
      if marker == 0 then Required(Null, nullable, next)
      else if name !in r then Err(UnknownTag)
      else if depth == MAX_DEPTH then Err(TooDeep)
      else ReadBody(r, p, r[name], next, depth + 1)
    case TArray(elem, nullable, fixed) =>
      var (v, next) :- ReadArray(r, p, elem, pos, depth);
      if v.Items? && fixed.Some? && |v.items| != fixed.value then Err(FixedSize)
      else Required(v, nullable, next)
  }

  function ReadArray(r: Schema, p: Incoming, elem: Type, pos: nat, depth: nat): Read<Value>
    requires depth <= MAX_DEPTH
    decreases MAX_DEPTH - depth, 0, elem
  {
    if IsPacked(elem) then
      var (bytes, next) :- ReadPacked(p, pos);
      Ok((match bytes case None => Null case Some(s) => Items(FromItemBytes(elem, s)), next))
    else
      var (n, next) :- ReadLength(p, pos, MinBytes(elem));
      match n
      case None => Ok((Null, next))
      case Some(len) =>
        var (vs, end) :- ReadItems(r, p, elem, len, next, depth);
        Ok((Items(vs), end))
  }

  function FromItemBytes(elem: Type, s: seq<byte>): seq<Value>
  {
    seq(|s|, i requires 0 <= i < |s| => Num(if elem == TPrim(Byte) then s[i] else Signed(s[i], 0x80)))
  }

  function ReadItems(r: Schema, p: Incoming, elem: Type, n: nat, pos: nat, depth: nat): Read<seq<Value>>
    requires depth <= MAX_DEPTH
    decreases MAX_DEPTH - depth, 0, elem, n + 1
  {
    if n == 0 then Ok(([], pos))
    else
      var (v, p1) :- ReadValue(r, p, elem, pos, depth);
      var (vs, p2) :- ReadItems(r, p, elem, n - 1, p1, depth);
      Ok(([v] + vs, p2))
  }

  function ReadBody(r: Schema, p: Incoming, d: Decl, pos: nat, depth: nat): Read<Value>
    requires depth <= MAX_DEPTH
    decreases MAX_DEPTH - depth, 2
  {
    match d
    case Parcelable(fields) =>
      var (size, next) :- ReadI32(p, pos);
      if size < 4 || pos + size > |p.data| then Err(ParcelableSize)
      else
        var (vs, end) :- ReadFields(r, p, fields, pos + size, next, depth);
        if end > pos + size then Err(FieldsPastSize) else Ok((Record(vs), pos + size))
    case Union(fields) =>
      var (tag, next) :- ReadI32(p, pos);
      if !(0 <= tag < |fields|) then Err(UnknownTag)
      else
        var (v, end) :- ReadValue(r, p, fields[tag].ty, next, depth);
        Ok((Variant(tag, v), end))
  }

  /** The fields of a parcelable that ends at `end`: those not sent keep their defaults. */
  function ReadFields(r: Schema, p: Incoming, fields: seq<Field>, end: nat, pos: nat, depth: nat): Read<seq<Value>>
    requires depth <= MAX_DEPTH
    decreases MAX_DEPTH - depth, 1, |fields|
  {
    if fields == [] then Ok(([], pos))
    else
      var (v, p1) :- if pos < end then ReadValue(r, p, fields[0].ty, pos, depth)
                     else if fields[0].default.Some? then Ok((fields[0].default.value, pos))
                     else Err(MissingField);
      var (vs, p2) :- ReadFields(r, p, fields[1..], end, p1, depth);
      Ok(([v] + vs, p2))
  }

  // ---------------------------------------------------------------- another version's reader

  /** The versions agree on every field both have: fields are only ever added at the end. */
  ghost predicate Evolves(w: Schema, r: Schema)
  {
    forall name :: name in w ==>
      && name in r
      && w[name].Parcelable? == r[name].Parcelable?
      && forall i :: 0 <= i < |w[name].fields| && i < |r[name].fields| ==> w[name].fields[i].ty == r[name].fields[i].ty
  }

  /**
   * Whether a reader of `r` can take `v`: every field it needs is sent or defaults, every tag is known,
   * and it is not too deep.
   */
  predicate Readable(r: Schema, ty: Type, v: Value, depth: nat)
    decreases v, 0
  {
    match v
    case Items(vs) => ty.TArray? ==> (IsPacked(ty.elem) || AllReadable(r, ty.elem, vs, depth))
    case Record(vs) =>
      ty.TNamed? ==> && depth < MAX_DEPTH && ty.name in r && r[ty.name].Parcelable?
                     && FieldsReadable(r, r[ty.name].fields, vs, depth + 1)
    case Variant(tag, x) =>
      ty.TNamed? ==> && depth < MAX_DEPTH && ty.name in r && r[ty.name].Union? && tag < |r[ty.name].fields|
                     && Readable(r, r[ty.name].fields[tag].ty, x, depth + 1)
    case _ => true
  }

  predicate AllReadable(r: Schema, elem: Type, vs: seq<Value>, depth: nat)
    decreases vs
  {
    vs == [] || (Readable(r, elem, vs[0], depth) && AllReadable(r, elem, vs[1..], depth))
  }

  predicate FieldsReadable(r: Schema, fields: seq<Field>, vs: seq<Value>, depth: nat)
    decreases vs, |fields|
  {
    if fields == [] then true
    else if vs == [] then fields[0].default.Some? && FieldsReadable(r, fields[1..], [], depth)
    else Readable(r, fields[0].ty, vs[0], depth) && FieldsReadable(r, fields[1..], vs[1..], depth)
  }

  /** `v` as a reader of `r` sees it: fields it does not know are gone, fields not sent are their defaults. */
  function Seen(r: Schema, ty: Type, v: Value, depth: nat): Value
    requires Readable(r, ty, v, depth)
    decreases v, 0
  {
    match v
    case Items(vs) => if ty.TArray? && !IsPacked(ty.elem) then Items(AllSeen(r, ty.elem, vs, depth)) else v
    case Record(vs) => if ty.TNamed? then Record(FieldsSeen(r, r[ty.name].fields, vs, depth + 1)) else v
    case Variant(tag, x) => if ty.TNamed? then Variant(tag, Seen(r, r[ty.name].fields[tag].ty, x, depth + 1)) else v
    case _ => v
  }

  function AllSeen(r: Schema, elem: Type, vs: seq<Value>, depth: nat): (s: seq<Value>)
    requires AllReadable(r, elem, vs, depth)
    ensures |s| == |vs|
    decreases vs
  {
    if vs == [] then [] else [Seen(r, elem, vs[0], depth)] + AllSeen(r, elem, vs[1..], depth)
  }

  function FieldsSeen(r: Schema, fields: seq<Field>, vs: seq<Value>, depth: nat): seq<Value>
    requires FieldsReadable(r, fields, vs, depth)
    decreases vs, |fields|
  {
    if fields == [] then []
    else if vs == [] then [fields[0].default.value] + FieldsSeen(r, fields[1..], [], depth)
    else [Seen(r, fields[0].ty, vs[0], depth)] + FieldsSeen(r, fields[1..], vs[1..], depth)
  }

  // ---------------------------------------------------------------- objects sent beside the bytes

  /** The transaction carries each descriptor's file and lists each handle where the writer put it. */
  ghost predicate Carried(p: Incoming, w: Schema, ty: Type, v: Value, pos: nat)
    requires HasType(w, ty, v)
    decreases v, 1
  {
    match ty
    case TFile(_) => v.FileOf? ==> pos + 8 in p.files && p.files[pos + 8] == v.file
    case TBinder(_) => v.Handle? ==> pos in p.listed
    case TNamed(name, _) => !v.Null? ==> BodyCarried(p, w, w[name], v, pos + 4)
    case TArray(elem, _, _) => v.Items? && !IsPacked(elem) ==> AllCarried(p, w, elem, v.items, pos + 4)
    case _ => true
  }

  ghost predicate BodyCarried(p: Incoming, w: Schema, d: Decl, v: Value, pos: nat)
    requires HasBody(w, d, v)
    decreases v, 0
  {
    match d
    case Parcelable(fields) => FieldsCarried(p, w, fields, v.fields, pos + 4)
    case Union(fields) => Carried(p, w, fields[v.tag].ty, v.value, pos + 4)
  }

  ghost predicate AllCarried(p: Incoming, w: Schema, elem: Type, vs: seq<Value>, pos: nat)
    requires AllHaveType(w, elem, vs)
    decreases vs
  {
    vs == [] || (Carried(p, w, elem, vs[0], pos) && AllCarried(p, w, elem, vs[1..], pos + |Write(w, elem, vs[0])|))
  }

  ghost predicate FieldsCarried(p: Incoming, w: Schema, fields: seq<Field>, vs: seq<Value>, pos: nat)
    requires FieldsHaveType(w, fields, vs)
    decreases vs
  {
    vs == [] || (Carried(p, w, fields[0].ty, vs[0], pos) &&
                 FieldsCarried(p, w, fields[1..], vs[1..], pos + |Write(w, fields[0].ty, vs[0])|))
  }

  // ---------------------------------------------------------------- widths

  lemma LeafWidth(w: Schema, ty: Type, v: Value)
    requires HasType(w, ty, v) && !ty.TNamed? && !ty.TArray?
    ensures |Write(w, ty, v)| % 4 == 0 && |Write(w, ty, v)| >= MinBytes(ty)
  {
    hide I32, I64, Le, Utf16, File, Binder, Packed, ItemBytes, PackedRange, HasBody, WriteBody, AllHaveType, WriteItems;
  }

  /** Everything written is aligned, and nothing is narrower than the reader counts on. */
  lemma {:induction false} WriteWidth(w: Schema, ty: Type, v: Value)
    requires HasType(w, ty, v)
    ensures |Write(w, ty, v)| % 4 == 0 && |Write(w, ty, v)| >= MinBytes(ty)
    decreases v, 2
  {
    hide HasType, Write, MinBytes;
    match ty
    case TNamed(_, _) => NamedWidth(w, ty, v);
    case TArray(_, _, _) => ArrayWidth(w, ty, v);
    case _ => LeafWidth(w, ty, v);
  }

  lemma {:induction false} NamedWidth(w: Schema, ty: Type, v: Value)
    requires HasType(w, ty, v) && ty.TNamed?
    ensures |Write(w, ty, v)| % 4 == 0 && |Write(w, ty, v)| >= MinBytes(ty)
    decreases v, 1
  {
    hide I32, I64, Le, Utf16, File, Binder, Packed, ItemBytes, PackedRange, HasBody, WriteBody, AllHaveType, WriteItems;
    if !v.Null? {
      BodyWidth(w, w[ty.name], v);
    }
  }

  lemma {:induction false} ArrayWidth(w: Schema, ty: Type, v: Value)
    requires HasType(w, ty, v) && ty.TArray?
    ensures |Write(w, ty, v)| % 4 == 0 && |Write(w, ty, v)| >= MinBytes(ty)
    decreases v, 1
  {
    hide I32, I64, Le, Utf16, File, Binder, Packed, ItemBytes, PackedRange, HasBody, WriteBody, AllHaveType, WriteItems;
    if v.Items? && !IsPacked(ty.elem) {
      ItemsWidth(w, ty.elem, v.items);
    }
  }

  lemma {:induction false} BodyWidth(w: Schema, d: Decl, v: Value)
    requires HasBody(w, d, v)
    ensures |WriteBody(w, d, v)| % 4 == 0
    decreases v, 0
  {
    hide I32, HasType, Write, FieldsHaveType, WriteFields;
    match d
    case Parcelable(fields) => FieldsWidth(w, fields, v.fields);
    case Union(fields) => WriteWidth(w, fields[v.tag].ty, v.value);
  }

  /** `size` bytes are enough for `n` elements of `k`. */
  ghost predicate Enough(size: nat, n: nat, k: nat)
  {
    size >= n * k
  }

  lemma OneMore(a: nat, b: nat, n: nat, k: nat)
    requires a >= k && Enough(b, n, k)
    ensures Enough(a + b, n + 1, k)
  {
    assert (n + 1) * k == n * k + k;
  }

  lemma EnoughForNone(k: nat)
    ensures Enough(0, 0, k)
  {
  }

  lemma {:induction false} ItemsWidth(w: Schema, elem: Type, vs: seq<Value>)
    requires AllHaveType(w, elem, vs)
    ensures |WriteItems(w, elem, vs)| % 4 == 0 && Enough(|WriteItems(w, elem, vs)|, |vs|, MinBytes(elem))
    decreases vs
  {
    hide HasType, Write, MinBytes, Enough;
    if vs == [] {
      EnoughForNone(MinBytes(elem));
    } else {
      ItemsSplit(w, elem, vs);
      hide AllHaveType, WriteItems;
      WriteWidth(w, elem, vs[0]);
      ItemsWidth(w, elem, vs[1..]);
      OneMore(|Write(w, elem, vs[0])|, |WriteItems(w, elem, vs[1..])|, |vs[1..]|, MinBytes(elem));
    }
  }

  lemma ItemsSplit(w: Schema, elem: Type, vs: seq<Value>)
    requires AllHaveType(w, elem, vs) && vs != []
    ensures HasType(w, elem, vs[0]) && AllHaveType(w, elem, vs[1..]) && |vs| == |vs[1..]| + 1
    ensures |WriteItems(w, elem, vs)| == |Write(w, elem, vs[0])| + |WriteItems(w, elem, vs[1..])|
  {
    hide HasType, Write;
  }

  lemma {:induction false} FieldsWidth(w: Schema, fields: seq<Field>, vs: seq<Value>)
    requires FieldsHaveType(w, fields, vs)
    ensures |WriteFields(w, fields, vs)| % 4 == 0 && (vs != [] ==> |WriteFields(w, fields, vs)| > 0)
    decreases vs
  {
    hide HasType, Write;
    if vs != [] {
      WriteWidth(w, fields[0].ty, vs[0]);
      FieldsWidth(w, fields[1..], vs[1..]);
    }
  }

  // ---------------------------------------------------------------- reading back

  /** The reader refuses, or reads exactly what is expected, and stops exactly where the writer did. */
  ghost predicate Reads<T(!new)>(got: Read<T>, readable: bool, want: T, end: nat)
  {
    if readable then got == Ok((want, end)) else got.Err?
  }

  lemma ReadBitsAt(p: Incoming, prim: Prim, n: int, pos: nat)
    requires PrimRange(prim, n) && At(p.data, pos, WritePrim(prim, n)) && (prim.Float? || prim.Double?)
    ensures ReadPrim(p, prim, pos) == Ok((Num(n), pos + |WritePrim(prim, n)|))
  {
    hide At, Le, I32, I64, ReadI32, ReadI64, ReadLe;
    Powers();
    ReadLeAt(p, pos, n, if prim.Float? then 4 else 8);
  }

  lemma ReadIntAt(p: Incoming, prim: Prim, n: int, pos: nat)
    requires PrimRange(prim, n) && At(p.data, pos, WritePrim(prim, n)) && !prim.Float? && !prim.Double?
    ensures ReadPrim(p, prim, pos) == Ok((Num(n), pos + |WritePrim(prim, n)|))
  {
    hide At, Le, I32, I64, ReadI32, ReadI64, ReadLe;
    if prim.Long? {
      ReadI64At(p, pos, n);
    } else {
      ReadI32At(p, pos, n);
    }
  }

  lemma ReadPrimAt(p: Incoming, prim: Prim, n: int, pos: nat)
    requires PrimRange(prim, n) && At(p.data, pos, WritePrim(prim, n))
    ensures ReadPrim(p, prim, pos) == Ok((Num(n), pos + |WritePrim(prim, n)|))
  {
    hide At, WritePrim, ReadPrim, PrimRange;
    if prim.Float? || prim.Double? {
      ReadBitsAt(p, prim, n, pos);
    } else {
      ReadIntAt(p, prim, n, pos);
    }
  }

  lemma PackedItemsBack(elem: Type, vs: seq<Value>)
    requires IsPacked(elem)
    requires forall i :: 0 <= i < |vs| ==> vs[i].Num? && PackedRange(elem, vs[i].n)
    ensures FromItemBytes(elem, ItemBytes(vs)) == vs
  {
    assert FromItemBytes(elem, ItemBytes(vs)) == vs;
  }

  lemma {:induction false} ValueReads(w: Schema, r: Schema, p: Incoming, ty: Type, v: Value, pos: nat, depth: nat)
    requires Evolves(w, r) && HasType(w, ty, v) && |Write(w, ty, v)| < MAX_PARCEL
    requires At(p.data, pos, Write(w, ty, v)) && pos % 4 == 0 && Carried(p, w, ty, v, pos) && depth <= MAX_DEPTH
    ensures var ok := Readable(r, ty, v, depth);
            Reads(ReadValue(r, p, ty, pos, depth), ok, if ok then Seen(r, ty, v, depth) else v, pos + |Write(w, ty, v)|)
    decreases v, 3
  {
    hide PrimRange, PackedRange, WritePrim, ReadPrim, I32, Utf16, File, Binder, Packed, At, Carried, HasBody,
         WriteBody, ReadBody, BodyCarried, AllHaveType, WriteItems, ReadItems, AllCarried, AllReadable, AllSeen,
         FieldsReadable, FieldsSeen, Evolves, ReadI32, ReadUtf16, ReadFile, ReadBinder, ReadPacked, ReadLength,
         ItemBytes, FromItemBytes;
    match ty
    case TPrim(prim) => ReadPrimAt(p, prim, v.n, pos);
    case TEnum(b) => ReadPrimAt(p, BackingPrim(b), v.n, pos);
    case TString(_) => StringReads(p, v, pos);
    case TFile(_) => FileReads(w, p, ty, v, pos);
    case TBinder(_) => BinderReads(w, p, ty, v, pos);
    case TNamed(name, _) =>
      if v.Null? {
        ReadI32At(p, pos, 0);
      } else {
        NamedReads(w, r, p, ty, v, pos, depth);
      }
    case TArray(elem, _, _) =>
      if v.Null? {
        ReadNullLengthAt(p, pos, MinBytes(elem));
        ReadNullPackedAt(p, pos);
      } else if IsPacked(elem) {
        PackedReads(p, elem, v, pos);
      } else {
        ArrayReads(w, r, p, ty, v, pos, depth);
      }
  }

  lemma FileReads(w: Schema, p: Incoming, ty: Type, v: Value, pos: nat)
    requires ty.TFile? && HasType(w, ty, v) && At(p.data, pos, if v.Null? then I32(0) else File()) &&
             Carried(p, w, ty, v, pos)
    ensures ReadFile(p, pos) == if v.Null? then Ok((None, pos + 4)) else Ok((Some(v.file), pos + 32))
  {
    hide I32, File;
    if v.Null? {
      ReadI32At(p, pos, 0);
    } else {
      hide ReadI32, ReadFileObject;
      ReadFileAt(p, pos);
    }
  }

  lemma BinderReads(w: Schema, p: Incoming, ty: Type, v: Value, pos: nat)
    requires ty.TBinder? && HasType(w, ty, v) && Carried(p, w, ty, v, pos)
    requires At(p.data, pos, if v.Null? then Binder(None, 0) else Binder(Some(v.handle), 0))
    ensures ReadBinder(p, pos) == Ok((if v.Null? then None else Some(v.handle), pos + 28))
  {
    hide Binder, ReadBinder, At;
    ReadBinderAt(p, pos, if v.Null? then None else Some(v.handle), 0);
  }

  lemma PackedReads(p: Incoming, elem: Type, v: Value, pos: nat)
    requires IsPacked(elem) && v.Items? && |Packed(ItemBytes(v.items))| < 0x8000_0000
    requires forall i :: 0 <= i < |v.items| ==> v.items[i].Num? && PackedRange(elem, v.items[i].n)
    requires At(p.data, pos, Packed(ItemBytes(v.items))) && pos % 4 == 0
    ensures ReadPacked(p, pos) == Ok((Some(ItemBytes(v.items)), pos + |Packed(ItemBytes(v.items))|))
    ensures FromItemBytes(elem, ItemBytes(v.items)) == v.items
  {
    PackedItemsBack(elem, v.items);
    hide At, ReadPacked, Packed, FromItemBytes;
    ReadPackedAt(p, pos, ItemBytes(v.items));
  }

  lemma {:induction false} NamedReads(w: Schema, r: Schema, p: Incoming, ty: Type, v: Value, pos: nat, depth: nat)
    requires Evolves(w, r) && ty.TNamed? && HasType(w, ty, v) && !v.Null? && |Write(w, ty, v)| < MAX_PARCEL
    requires At(p.data, pos, Write(w, ty, v)) && pos % 4 == 0 && Carried(p, w, ty, v, pos) && depth <= MAX_DEPTH
    ensures var ok := Readable(r, ty, v, depth);
            Reads(ReadValue(r, p, ty, pos, depth), ok, if ok then Seen(r, ty, v, depth) else v, pos + |Write(w, ty, v)|)
    decreases v, 2
  {
    hide I32, At, HasBody, WriteBody, BodyCarried, ReadI32, FieldsReadable, FieldsSeen, ReadBody;
    var body := WriteBody(w, w[ty.name], v);
    assert Write(w, ty, v) == I32(1) + body;
    AtSplit(p.data, pos, I32(1), body);
    ReadI32At(p, pos, 1);
    if depth < MAX_DEPTH {
      hide Readable, Seen;
      BodyReads(w, r, p, ty, v, pos + 4, depth + 1);
    } else {
      NotReadableAtLimit(r, w, ty, v);
    }
  }

  lemma NotReadableAtLimit(r: Schema, w: Schema, ty: Type, v: Value)
    requires ty.TNamed? && HasType(w, ty, v) && !v.Null?
    ensures !Readable(r, ty, v, MAX_DEPTH)
  {
  }

  lemma {:induction false} ArrayReads(w: Schema, r: Schema, p: Incoming, ty: Type, v: Value, pos: nat, depth: nat)
    requires Evolves(w, r) && ty.TArray? && HasType(w, ty, v) && v.Items? && !IsPacked(ty.elem)
             && |Write(w, ty, v)| < MAX_PARCEL
    requires At(p.data, pos, Write(w, ty, v)) && pos % 4 == 0 && Carried(p, w, ty, v, pos) && depth <= MAX_DEPTH
    ensures var ok := Readable(r, ty, v, depth);
            Reads(ReadValue(r, p, ty, pos, depth), ok, if ok then Seen(r, ty, v, depth) else v, pos + |Write(w, ty, v)|)
    decreases v, 1
  {
    hide I32, At, WriteItems, AllCarried, AllHaveType, ReadLength, MinBytes, AllReadable, AllSeen, ReadItems, IsPacked;
    var elem, items := ty.elem, WriteItems(w, ty.elem, v.items);
    assert Write(w, ty, v) == I32(|v.items|) + items;
    AtSplit(p.data, pos, I32(|v.items|), items);
    InRange(p.data, pos + 4, items);
    ItemsWidth(w, elem, v.items);
    TimesAtLeast(|v.items|, elem);
    ReadLengthAt(p, pos, |v.items|, MinBytes(elem));
    ItemsRead(w, r, p, elem, v.items, pos + 4, depth);
  }

  lemma TimesAtLeast(n: nat, elem: Type)
    ensures n <= n * MinBytes(elem)
  {
  }

  lemma StringReads(p: Incoming, v: Value, pos: nat)
    requires v.Null? || (v.Text? && |v.units| < 0x8000_0000 && forall i :: 0 <= i < |v.units| ==> v.units[i] < 0x1_0000)
    requires At(p.data, pos, if v.Null? then I32(-1) else Utf16(v.units)) && pos % 4 == 0
    ensures ReadUtf16(p, pos) == if v.Null? then Ok((None, pos + 4)) else Ok((Some(v.units), pos + |Utf16(v.units)|))
  {
    if v.Null? {
      ReadI32At(p, pos, -1);
    } else {
      ReadUtf16At(p, pos, v.units);
    }
  }

  lemma {:induction false} BodyReads(w: Schema, r: Schema, p: Incoming, ty: Type, v: Value, pos: nat, depth: nat)
    requires Evolves(w, r) && ty.TNamed? && ty.name in w && HasBody(w, w[ty.name], v)
             && |WriteBody(w, w[ty.name], v)| < MAX_PARCEL
    requires At(p.data, pos, WriteBody(w, w[ty.name], v)) && pos % 4 == 0 && BodyCarried(p, w, w[ty.name], v, pos)
    requires 0 < depth <= MAX_DEPTH
    ensures var ok := Readable(r, ty, v, depth - 1);
            Reads(ReadBody(r, p, r[ty.name], pos, depth), ok, if ok then Seen(r, ty, v, depth - 1) else v,
                  pos + |WriteBody(w, w[ty.name], v)|)
    decreases v, 1
  {
    hide I32, At, HasType, Write, Carried, FieldsHaveType, WriteFields, FieldsCarried, ReadI32, FieldsReadable,
         FieldsSeen, ReadValue, ReadFields;
    match w[ty.name]
    case Parcelable(fields) => ParcelableReads(w, r, p, ty, v, pos, depth);
    case Union(fields) => UnionReads(w, r, p, ty, v, pos, depth);
  }

  lemma {:induction false} ParcelableReads(w: Schema, r: Schema, p: Incoming, ty: Type, v: Value, pos: nat, depth: nat)
    requires Evolves(w, r) && ty.TNamed? && ty.name in w && w[ty.name].Parcelable?
    requires v.Record? && FieldsHaveType(w, w[ty.name].fields, v.fields) && 0 < depth <= MAX_DEPTH && pos % 4 == 0
    requires var body := WriteFields(w, w[ty.name].fields, v.fields);
             |body| < MAX_PARCEL - 4 && At(p.data, pos, I32(4 + |body|) + body)
    requires FieldsCarried(p, w, w[ty.name].fields, v.fields, pos + 4)
    ensures var ok := Readable(r, ty, v, depth - 1);
            Reads(ReadBody(r, p, r[ty.name], pos, depth), ok, if ok then Seen(r, ty, v, depth - 1) else v,
                  pos + 4 + |WriteFields(w, w[ty.name].fields, v.fields)|)
    decreases v, 0
  {
    hide FieldsHaveType, WriteFields, FieldsCarried, FieldsReadable, FieldsSeen, ReadFields, At, I32, ReadI32;
    var fields, known := w[ty.name].fields, r[ty.name].fields;
    var body := WriteFields(w, fields, v.fields);
    AtSplit(p.data, pos, I32(4 + |body|), body);
    InRange(p.data, pos + 4, body);
    ReadI32At(p, pos, 4 + |body|);
    FieldsRead(w, r, p, fields, known, v.fields, pos + 4, pos + 4 + |body|, depth);
  }

  lemma InRange(data: seq<byte>, pos: nat, bytes: seq<byte>)
    requires At(data, pos, bytes)
    ensures pos + |bytes| <= |data|
  {
  }

  lemma {:induction false} UnionReads(w: Schema, r: Schema, p: Incoming, ty: Type, v: Value, pos: nat, depth: nat)
    requires Evolves(w, r) && ty.TNamed? && ty.name in w && w[ty.name].Union? && HasBody(w, w[ty.name], v)
    requires 0 < depth <= MAX_DEPTH && pos % 4 == 0
    requires var bytes := Write(w, w[ty.name].fields[v.tag].ty, v.value);
             |bytes| < MAX_PARCEL - 4 && At(p.data, pos, I32(v.tag) + bytes)
    requires Carried(p, w, w[ty.name].fields[v.tag].ty, v.value, pos + 4)
    ensures var ok := Readable(r, ty, v, depth - 1);
            Reads(ReadBody(r, p, r[ty.name], pos, depth), ok, if ok then Seen(r, ty, v, depth - 1) else v,
                  pos + 4 + |Write(w, w[ty.name].fields[v.tag].ty, v.value)|)
    decreases v, 0
  {
    hide HasType, Write, Carried, ReadValue, At, I32, ReadI32;
    var field := w[ty.name].fields[v.tag].ty;
    var bytes := Write(w, field, v.value);
    AtSplit(p.data, pos, I32(v.tag), bytes);
    WriteWidth(w, field, v.value);
    ReadI32At(p, pos, v.tag);
    if v.tag < |r[ty.name].fields| {
      ValueReads(w, r, p, field, v.value, pos + 4, depth);
    }
  }

  lemma {:induction false} ItemsRead(w: Schema, r: Schema, p: Incoming, elem: Type, vs: seq<Value>, pos: nat,
                                     depth: nat)
    requires Evolves(w, r) && AllHaveType(w, elem, vs) && |WriteItems(w, elem, vs)| < MAX_PARCEL
    requires At(p.data, pos, WriteItems(w, elem, vs)) && pos % 4 == 0 && AllCarried(p, w, elem, vs, pos)
             && depth <= MAX_DEPTH
    ensures var ok := AllReadable(r, elem, vs, depth);
            Reads(ReadItems(r, p, elem, |vs|, pos, depth), ok, if ok then AllSeen(r, elem, vs, depth) else vs,
                  pos + |WriteItems(w, elem, vs)|)
    decreases vs
  {
    hide At, HasType, Write, Carried, ReadValue, Readable, Seen;
    if vs != [] {
      var head := Write(w, elem, vs[0]);
      AtSplit(p.data, pos, head, WriteItems(w, elem, vs[1..]));
      WriteWidth(w, elem, vs[0]);
      ValueReads(w, r, p, elem, vs[0], pos, depth);
      ItemsRead(w, r, p, elem, vs[1..], pos + |head|, depth);
    }
  }

  /** The reader's fields against the writer's: those both have, then the missing or the extra ones. */
  lemma {:induction false} FieldsRead(w: Schema, r: Schema, p: Incoming, sent: seq<Field>, known: seq<Field>,
                                      vs: seq<Value>,
                                      pos: nat, end: nat, depth: nat)
    requires Evolves(w, r) && FieldsHaveType(w, sent, vs) && |WriteFields(w, sent, vs)| < MAX_PARCEL
    requires forall i :: 0 <= i < |sent| && i < |known| ==> sent[i].ty == known[i].ty
    requires At(p.data, pos, WriteFields(w, sent, vs)) && pos % 4 == 0 && FieldsCarried(p, w, sent, vs, pos)
    requires end == pos + |WriteFields(w, sent, vs)| && depth <= MAX_DEPTH
    ensures FieldsExpected(ReadFields(r, p, known, end, pos, depth), r, known, vs, depth, end)
    decreases vs, |known|
  {
    hide At, HasType, Write, Carried, FieldsHaveType, WriteFields, FieldsCarried, Evolves, ReadValue, ReadFields,
         Readable, Seen, FieldsReadable, FieldsSeen, FieldsExpected;
    if vs == [] {
      NoFields(w, sent);
      FieldsNotSent(r, p, known, pos, depth);
    } else if known == [] {
      NothingKnown(r, p, vs, pos, end, depth);
    } else {
      FieldsSplit(w, p, sent, vs, pos);
      var next := pos + |Write(w, sent[0].ty, vs[0])|;
      assert sent[0].ty == known[0].ty;
      ValueReads(w, r, p, sent[0].ty, vs[0], pos, depth);
      FieldsRead(w, r, p, sent[1..], known[1..], vs[1..], next, end, depth);
      FieldsStep(r, p, known, vs, pos, next, end, depth);
    }
  }

  lemma NoFields(w: Schema, sent: seq<Field>)
    requires FieldsHaveType(w, sent, [])
    ensures WriteFields(w, sent, []) == []
  {
  }

  lemma NothingKnown(r: Schema, p: Incoming, vs: seq<Value>, pos: nat, end: nat, depth: nat)
    requires pos <= end && depth <= MAX_DEPTH
    ensures FieldsExpected(ReadFields(r, p, [], end, pos, depth), r, [], vs, depth, end)
  {
  }

  lemma FieldsSplit(w: Schema, p: Incoming, sent: seq<Field>, vs: seq<Value>, pos: nat)
    requires FieldsHaveType(w, sent, vs) && vs != []
    requires At(p.data, pos, WriteFields(w, sent, vs)) && FieldsCarried(p, w, sent, vs, pos)
    ensures HasType(w, sent[0].ty, vs[0]) && FieldsHaveType(w, sent[1..], vs[1..]) && sent != []
    ensures var head, tail := Write(w, sent[0].ty, vs[0]), WriteFields(w, sent[1..], vs[1..]);
            && |head| % 4 == 0 && |head| > 0 && |WriteFields(w, sent, vs)| == |head| + |tail|
            && At(p.data, pos, head) && At(p.data, pos + |head|, tail)
            && Carried(p, w, sent[0].ty, vs[0], pos) && FieldsCarried(p, w, sent[1..], vs[1..], pos + |head|)
  {
    hide At, HasType, Write, Carried;
    AtSplit(p.data, pos, Write(w, sent[0].ty, vs[0]), WriteFields(w, sent[1..], vs[1..]));
    WriteWidth(w, sent[0].ty, vs[0]);
  }

  /**
   * What reading a parcelable's fields gives: every known field, or an error when one can be neither
   * read nor defaulted.
   */
  ghost predicate FieldsExpected(got: Read<seq<Value>>, r: Schema, known: seq<Field>, vs: seq<Value>, depth: nat,
                                 end: nat)
  {
    match got
    case Ok((fields, at)) => FieldsReadable(r, known, vs, depth) && fields == FieldsSeen(r, known, vs, depth) &&
      at <= end
    case Err(_) => !FieldsReadable(r, known, vs, depth)
  }

  lemma FieldsStep(r: Schema, p: Incoming, known: seq<Field>, vs: seq<Value>, pos: nat, next: nat, end: nat, depth: nat)
    requires known != [] && vs != [] && pos < end && depth <= MAX_DEPTH
    requires var ok := Readable(r, known[0].ty, vs[0], depth);
             Reads(ReadValue(r, p, known[0].ty, pos, depth), ok, if ok then Seen(r, known[0].ty, vs[0], depth)
               else vs[0], next)
    requires FieldsExpected(ReadFields(r, p, known[1..], end, next, depth), r, known[1..], vs[1..], depth, end)
    ensures FieldsExpected(ReadFields(r, p, known, end, pos, depth), r, known, vs, depth, end)
  {
    hide ReadValue, Readable, Seen;
  }

  lemma {:induction false} FieldsNotSent(r: Schema, p: Incoming, known: seq<Field>, pos: nat, depth: nat)
    requires depth <= MAX_DEPTH
    ensures FieldsExpected(ReadFields(r, p, known, pos, pos, depth), r, known, [], depth, pos)
    decreases |known|
  {
    hide ReadValue;
    if known != [] {
      FieldsNotSent(r, p, known[1..], pos, depth);
    }
  }

  // ---------------------------------------------------------------- the theorems

  /**
   * Across versions: whatever the writer sent, the reader takes exactly its own view of it, and the
   * bytes that follow are where it stops. It refuses exactly when a field it needs was not sent and
   * has no default, a tag is newer than it knows, or the value nests too deep.
   */
  lemma VersionsAgree(w: Schema, r: Schema, p: Incoming, ty: Type, v: Value, pos: nat)
    requires Evolves(w, r) && HasType(w, ty, v) && |Write(w, ty, v)| < 0x8000_0000
    requires At(p.data, pos, Write(w, ty, v)) && pos % 4 == 0 && Carried(p, w, ty, v, pos)
    ensures if Readable(r, ty, v, 0) then ReadValue(r, p, ty, pos, 0) ==
            Ok((Seen(r, ty, v, 0), pos + |Write(w, ty, v)|))
            else ReadValue(r, p, ty, pos, 0).Err?
  {
    hide HasType, Write, Carried, At, Readable, Seen, ReadValue;
    ValueReads(w, r, p, ty, v, pos, 0);
  }

  /** How deep a value nests parcelables and unions. */
  function Nesting(v: Value): nat
  {
    match v
    case Items(vs) => DeepestOf(vs)
    case Record(vs) => 1 + DeepestOf(vs)
    case Variant(_, x) => 1 + Nesting(x)
    case _ => 0
  }

  function DeepestOf(vs: seq<Value>): nat
  {
    if vs == [] then 0
    else
      var a, b := Nesting(vs[0]), DeepestOf(vs[1..]);
      if a > b then a else b
  }

  lemma {:induction false} SameVersionSees(w: Schema, ty: Type, v: Value, depth: nat)
    requires HasType(w, ty, v) && depth + Nesting(v) <= 64
    ensures Readable(w, ty, v, depth) && Seen(w, ty, v, depth) == v
    decreases v
  {
    match v
    case Items(vs) =>
      if !IsPacked(ty.elem) {
        SameVersionSeesAll(w, ty.elem, vs, depth);
      }
    case Record(vs) => SameVersionSeesFields(w, w[ty.name].fields, vs, depth + 1);
    case Variant(tag, x) => SameVersionSees(w, w[ty.name].fields[tag].ty, x, depth + 1);
    case _ =>
  }

  lemma {:induction false} SameVersionSeesAll(w: Schema, elem: Type, vs: seq<Value>, depth: nat)
    requires AllHaveType(w, elem, vs) && depth + DeepestOf(vs) <= MAX_DEPTH
    ensures AllReadable(w, elem, vs, depth) && AllSeen(w, elem, vs, depth) == vs
    decreases vs
  {
    if vs != [] {
      SameVersionSees(w, elem, vs[0], depth);
      SameVersionSeesAll(w, elem, vs[1..], depth);
    }
  }

  lemma {:induction false} SameVersionSeesFields(w: Schema, fields: seq<Field>, vs: seq<Value>, depth: nat)
    requires FieldsHaveType(w, fields, vs) && depth + DeepestOf(vs) <= MAX_DEPTH
    ensures FieldsReadable(w, fields, vs, depth) && FieldsSeen(w, fields, vs, depth) == vs
    decreases vs
  {
    if vs != [] {
      SameVersionSees(w, fields[0].ty, vs[0], depth);
      SameVersionSeesFields(w, fields[1..], vs[1..], depth);
    }
  }

  /** A value nested deeper than 64 is more than a reader takes. */
  lemma {:induction false} DeeperUnreadable(w: Schema, ty: Type, v: Value, depth: nat)
    requires HasType(w, ty, v) && depth <= 64 < depth + Nesting(v)
    ensures !Readable(w, ty, v, depth)
    decreases v
  {
    match v
    case Items(vs) =>
      if IsPacked(ty.elem) {
        NumbersShallow(vs);
      } else {
        DeeperUnreadableIn(w, ty.elem, vs, depth);
      }
    case Record(vs) =>
      if depth < 64 {
        DeeperUnreadableFields(w, w[ty.name].fields, vs, depth + 1);
      }
    case Variant(tag, x) =>
      if depth < 64 {
        DeeperUnreadable(w, w[ty.name].fields[tag].ty, x, depth + 1);
      }
    case _ =>
  }

  lemma {:induction false} NumbersShallow(vs: seq<Value>)
    requires forall i :: 0 <= i < |vs| ==> vs[i].Num?
    ensures DeepestOf(vs) == 0
  {
    if vs != [] {
      NumbersShallow(vs[1..]);
    }
  }

  lemma {:induction false} DeeperUnreadableIn(w: Schema, elem: Type, vs: seq<Value>, depth: nat)
    requires AllHaveType(w, elem, vs) && depth <= 64 < depth + DeepestOf(vs)
    ensures !AllReadable(w, elem, vs, depth)
    decreases vs
  {
    if depth + Nesting(vs[0]) > 64 {
      DeeperUnreadable(w, elem, vs[0], depth);
    } else {
      DeeperUnreadableIn(w, elem, vs[1..], depth);
    }
  }

  lemma {:induction false} DeeperUnreadableFields(w: Schema, fields: seq<Field>, vs: seq<Value>, depth: nat)
    requires FieldsHaveType(w, fields, vs) && depth <= 64 < depth + DeepestOf(vs)
    ensures !FieldsReadable(w, fields, vs, depth)
    decreases vs
  {
    if depth + Nesting(vs[0]) > 64 {
      DeeperUnreadable(w, fields[0].ty, vs[0], depth);
    } else {
      DeeperUnreadableFields(w, fields[1..], vs[1..], depth);
    }
  }

  /** Reading undoes writing, for every type and every value nested no deeper than 64; a deeper one is refused. */
  lemma RoundTrip(w: Schema, p: Incoming, ty: Type, v: Value, pos: nat)
    requires HasType(w, ty, v) && |Write(w, ty, v)| < 0x8000_0000
    requires At(p.data, pos, Write(w, ty, v)) && pos % 4 == 0 && Carried(p, w, ty, v, pos)
    ensures var got := ReadValue(w, p, ty, pos, 0);
            if Nesting(v) <= 64 then got == Ok((v, pos + |Write(w, ty, v)|)) else got.Err?
  {
    hide HasType, Write, Carried, At, Readable, Seen, ReadValue, Nesting;
    if Nesting(v) <= 64 {
      SameVersionSees(w, ty, v, 0);
    } else {
      DeeperUnreadable(w, ty, v, 0);
    }
    VersionsAgree(w, w, p, ty, v, pos);
  }
}
