/** The objects a transaction lists beside its bytes, and how a reader finds a descriptor's file among them. */
module ParcelObjects {
  import opened Wrappers
  import opened Bytes
  import opened Parcel
  import opened Wire

  /** An object as it was written: a descriptor with its file, or a binder. */
  datatype Listed = Listed(at: nat, file: Option<nat>)

  function Offsets(objs: seq<Listed>): (s: seq<nat>)
    ensures |s| == |objs| && forall i :: 0 <= i < |objs| ==> s[i] == objs[i].at
  {
    if objs == [] then [] else [objs[0].at] + Offsets(objs[1..])
  }

  /** The files, in the order their descriptors were written. */
  function Files(objs: seq<Listed>): seq<nat>
  {
    if objs == [] then []
    else (if objs[0].file.Some? then [objs[0].file.value] else []) + Files(objs[1..])
  }

  // ---------------------------------------------------------------- the reader's numbering

  function KindAt(data: seq<byte>, at: nat): Option<nat>
  {
    if at + 4 <= |data| then Some(FromLe(data[at..at + 4])) else None
  }

  /** How many descriptors are listed before `at` is. */
  function NumberOf(data: seq<byte>, offsets: seq<nat>, at: nat): nat
  {
    if offsets == [] || offsets[0] == at then 0
    else (if KindAt(data, offsets[0]) == Some(TYPE_FD) then 1 else 0) + NumberOf(data, offsets[1..], at)
  }

  /** The file of a listed descriptor: by its place among the descriptors listed. */
  function FileAt(data: seq<byte>, offsets: seq<nat>, fds: seq<nat>, at: nat): Option<nat>
  {
    if at !in offsets then None
    else
      var n := NumberOf(data, offsets, at);
      if n < |fds| then Some(fds[n]) else None
  }

  /** What a reader is given. */
  function Received(data: seq<byte>, offsets: seq<nat>, fds: seq<nat>): Incoming
  {
    Incoming(data, map at | at in offsets && FileAt(data, offsets, fds, at).Some? ::
        FileAt(data, offsets, fds, at).value,
             set at | at in offsets)
  }

  // ---------------------------------------------------------------- the writer's list

  function ObjectsOf(w: Schema, ty: Type, v: Value, pos: nat): seq<Listed>
    requires HasType(w, ty, v)
    decreases v, 1
  {
    match ty
    case TFile(_) => if v.FileOf? then [Listed(pos + 8, Some(v.file))] else []
    case TBinder(_) => if v.Handle? then [Listed(pos, None)] else []
    case TNamed(name, _) => if v.Null? then [] else BodyObjects(w, w[name], v, pos + 4)
    case TArray(elem, _, _) => if v.Items? && !IsPacked(elem) then ItemObjects(w, elem, v.items, pos + 4) else []
    case _ => []
  }

  function BodyObjects(w: Schema, d: Decl, v: Value, pos: nat): seq<Listed>
    requires HasBody(w, d, v)
    decreases v, 0
  {
    match d
    case Parcelable(fields) => FieldObjects(w, fields, v.fields, pos + 4)
    case Union(fields) => ObjectsOf(w, fields[v.tag].ty, v.value, pos + 4)
  }

  function ItemObjects(w: Schema, elem: Type, vs: seq<Value>, pos: nat): seq<Listed>
    requires AllHaveType(w, elem, vs)
    decreases vs
  {
    if vs == [] then []
    else ObjectsOf(w, elem, vs[0], pos) + ItemObjects(w, elem, vs[1..], pos + |Write(w, elem, vs[0])|)
  }

  function FieldObjects(w: Schema, fields: seq<Field>, vs: seq<Value>, pos: nat): seq<Listed>
    requires FieldsHaveType(w, fields, vs)
    decreases vs
  {
    if vs == [] then []
    else
      ObjectsOf(w, fields[0].ty, vs[0], pos) +
      FieldObjects(w, fields[1..], vs[1..], pos + |Write(w, fields[0].ty, vs[0])|)
  }

  // ---------------------------------------------------------------- where the objects lie

  ghost predicate LiesAt(data: seq<byte>, o: Listed)
  {
    KindAt(data, o.at).Some? && (KindAt(data, o.at) == Some(TYPE_FD) <==> o.file.Some?)
  }

  /** The objects lie between `lo` and `hi`, in the order of the list. */
  ghost predicate Span(data: seq<byte>, objs: seq<Listed>, lo: nat, hi: nat)
  {
    && (forall i :: 0 <= i < |objs| ==> lo <= objs[i].at < hi && LiesAt(data, objs[i]))
    && (forall i, j :: 0 <= i < j < |objs| ==> objs[i].at < objs[j].at)
  }

  lemma SpanAppend(data: seq<byte>, a: seq<Listed>, b: seq<Listed>, lo: nat, mid: nat, hi: nat)
    requires Span(data, a, lo, mid) && Span(data, b, mid, hi) && lo <= mid <= hi
    ensures Span(data, a + b, lo, hi)
  {
    hide LiesAt;
  }

  lemma SpanWider(data: seq<byte>, a: seq<Listed>, lo: nat, hi: nat, less: nat, more: nat)
    requires Span(data, a, lo, hi) && less <= lo && hi <= more
    ensures Span(data, a, less, more)
  {
    hide LiesAt;
  }

  lemma NumberNext(data: seq<byte>, objs: seq<Listed>, at: nat)
    requires objs != [] && LiesAt(data, objs[0]) && objs[0].at != at
    ensures NumberOf(data, Offsets(objs), at) ==
            (if objs[0].file.Some? then 1 else 0) + NumberOf(data, Offsets(objs[1..]), at)
  {
    hide KindAt;
    assert Offsets(objs)[1..] == Offsets(objs[1..]);
  }

  lemma FilesNext(objs: seq<Listed>, n: nat)
    requires objs != [] && n < |Files(objs[1..])|
    ensures var m := (if objs[0].file.Some? then 1 else 0) + n;
            m < |Files(objs)| && Files(objs)[m] == Files(objs[1..])[n]
  {
  }

  /** Counting the descriptors listed before one finds its file. */
  lemma {:induction false} NumberFound(data: seq<byte>, objs: seq<Listed>, k: nat)
    requires k < |objs| && objs[k].file.Some? && forall i :: 0 <= i < |objs| ==> LiesAt(data, objs[i])
    requires forall i, j :: 0 <= i < j < |objs| ==> objs[i].at < objs[j].at
    ensures var n := NumberOf(data, Offsets(objs), objs[k].at);
            n < |Files(objs)| && Files(objs)[n] == objs[k].file.value
  {
    hide LiesAt, KindAt, Offsets, Files, NumberOf;
    if k == 0 {
      FirstFound(data, objs);
    } else {
      assert forall i :: 0 <= i < |objs[1..]| ==> objs[1..][i] == objs[i + 1];
      NumberFound(data, objs[1..], k - 1);
      NumberNext(data, objs, objs[k].at);
      FilesNext(objs, NumberOf(data, Offsets(objs[1..]), objs[k].at));
    }
  }

  lemma FirstFound(data: seq<byte>, objs: seq<Listed>)
    requires objs != [] && objs[0].file.Some?
    ensures NumberOf(data, Offsets(objs), objs[0].at) == 0 && Files(objs) != [] && Files(objs)[0] == objs[0].file.value
  {
  }

  /** The reader has what the writer listed. */
  ghost predicate Held(p: Incoming, o: Listed)
  {
    o.at in p.listed && (o.file.Some? ==> o.at in p.files && p.files[o.at] == o.file.value)
  }

  /** The reader's numbering gives back every file, however descriptors and binders are mixed. */
  lemma NumberingFinds(data: seq<byte>, objs: seq<Listed>, lo: nat, hi: nat)
    requires Span(data, objs, lo, hi)
    ensures forall o :: o in objs ==> Held(Received(data, Offsets(objs), Files(objs)), o)
  {
    hide LiesAt, NumberOf, Offsets, Files;
    forall o | o in objs
      ensures Held(Received(data, Offsets(objs), Files(objs)), o)
    {
      var k :| 0 <= k < |objs| && objs[k] == o;
      assert Offsets(objs)[k] == o.at;
      if o.file.Some? {
        NumberFound(data, objs, k);
      }
    }
  }

  // ---------------------------------------------------------------- the objects of what is written

  lemma FileLies(data: seq<byte>, pos: nat)
    requires At(data, pos, File())
    ensures KindAt(data, pos + 8) == Some(TYPE_FD)
  {
    hide Object, I32;
    AtSplit(data, pos, I32(1), I32(0) + Object(TYPE_FD, 0x7f, TWO64 - 1, 1));
    AtSplit(data, pos + 4, I32(0), Object(TYPE_FD, 0x7f, TWO64 - 1, 1));
    KindLies(data, pos + 8, TYPE_FD, 0x7f, TWO64 - 1, 1);
  }

  lemma KindLies(data: seq<byte>, at: nat, kind: nat, flags: nat, value: nat, cookie: nat)
    requires kind < TWO32 && At(data, at, Object(kind, flags, value, cookie))
    ensures KindAt(data, at) == Some(kind)
  {
    hide Le, FromLe;
    AtSplit(data, at, Le(kind, 4), Le(flags, 4) + (Le(value, 8) + Le(cookie, 8)));
    Powers();
    LeRoundTrip(kind, 4);
  }

  /** An object's kind is read wherever its four bytes are all there, the last of the data or not. */
  lemma KindsRead(data: seq<byte>, at: nat, kind: nat)
    requires kind < 0x1_0000_0000
    ensures KindAt(data, at) == Some(kind) <==> At(data, at, Le(kind, 4))
    ensures KindAt(data, at).None? <==> at + 4 > |data|
  {
    Powers();
    LeRoundTrip(kind, 4);
    if at + 4 <= |data| {
      LeBack(data[at..at + 4]);
    }
  }

  lemma {:induction false} LeBack(s: seq<byte>)
    ensures Le(FromLe(s), |s|) == s
  {
    if s != [] {
      LeBack(s[1..]);
      assert s == [s[0]] + s[1..];
    }
  }

  lemma BinderLies(data: seq<byte>, pos: nat, handle: nat)
    requires At(data, pos, Binder(Some(handle), 0))
    ensures KindAt(data, pos) == Some(TYPE_HANDLE)
  {
    hide Object, I32;
    AtSplit(data, pos, Object(TYPE_HANDLE, 0, handle, 0), I32(0));
    KindLies(data, pos, TYPE_HANDLE, 0, handle, 0);
  }

  lemma LeafSpan(data: seq<byte>, w: Schema, ty: Type, v: Value, pos: nat)
    requires HasType(w, ty, v) && At(data, pos, Write(w, ty, v)) && !ty.TNamed? && !ty.TArray?
    ensures Span(data, ObjectsOf(w, ty, v, pos), pos, pos + |Write(w, ty, v)|)
  {
    hide At, Binder, File, KindAt, Utf16, WritePrim, PrimRange;
    if ty.TFile? && v.FileOf? {
      FileLies(data, pos);
    } else if ty.TBinder? && v.Handle? {
      BinderLies(data, pos, v.handle);
    }
  }

  /** The objects of a value lie in its bytes, in the order they were written. */
  lemma {:induction false} ObjectsSpan(data: seq<byte>, w: Schema, ty: Type, v: Value, pos: nat)
    requires HasType(w, ty, v) && At(data, pos, Write(w, ty, v))
    ensures Span(data, ObjectsOf(w, ty, v, pos), pos, pos + |Write(w, ty, v)|)
    decreases v, 1
  {
    hide Span, At, HasBody, WriteBody, BodyObjects, WriteItems, ItemObjects, AllHaveType, PackedRange, Packed;
    if ty.TNamed? && !v.Null? {
      AtSplit(data, pos, I32(1), WriteBody(w, w[ty.name], v));
      BodySpan(data, w, w[ty.name], v, pos + 4);
      SpanWider(data, BodyObjects(w, w[ty.name], v, pos + 4), pos + 4, pos + 4 + |WriteBody(w, w[ty.name], v)|,
                pos, pos + 4 + |WriteBody(w, w[ty.name], v)|);
    } else if ty.TArray? && v.Items? && !IsPacked(ty.elem) {
      AtSplit(data, pos, I32(|v.items|), WriteItems(w, ty.elem, v.items));
      ItemsSpan(data, w, ty.elem, v.items, pos + 4);
      SpanWider(data, ItemObjects(w, ty.elem, v.items, pos + 4), pos + 4, pos + 4 + |WriteItems(w, ty.elem, v.items)|,
                pos, pos + 4 + |WriteItems(w, ty.elem, v.items)|);
    } else if ty.TNamed? || ty.TArray? {
      NoneSpan(data, pos, pos + |Write(w, ty, v)|);
    } else {
      LeafSpan(data, w, ty, v, pos);
    }
  }

  lemma NoneSpan(data: seq<byte>, lo: nat, hi: nat)
    ensures Span(data, [], lo, hi)
  {
  }

  lemma {:induction false} BodySpan(data: seq<byte>, w: Schema, d: Decl, v: Value, pos: nat)
    requires HasBody(w, d, v) && At(data, pos, WriteBody(w, d, v))
    ensures Span(data, BodyObjects(w, d, v, pos), pos, pos + |WriteBody(w, d, v)|)
    decreases v, 0
  {
    hide Span, At, HasType, Write, ObjectsOf, FieldsHaveType, WriteFields, FieldObjects;
    match d
    case Parcelable(fields) =>
      var body := WriteFields(w, fields, v.fields);
      AtSplit(data, pos, I32(4 + |body|), body);
      FieldsSpan(data, w, fields, v.fields, pos + 4);
      SpanWider(data, FieldObjects(w, fields, v.fields, pos + 4), pos + 4, pos + 4 + |body|, pos, pos + 4 + |body|);
    case Union(fields) =>
      var body := Write(w, fields[v.tag].ty, v.value);
      AtSplit(data, pos, I32(v.tag), body);
      ObjectsSpan(data, w, fields[v.tag].ty, v.value, pos + 4);
      SpanWider(data, ObjectsOf(w, fields[v.tag].ty, v.value, pos + 4), pos + 4, pos + 4 + |body|, pos,
                pos + 4 + |body|);
  }

  lemma {:induction false} ItemsSpan(data: seq<byte>, w: Schema, elem: Type, vs: seq<Value>, pos: nat)
    requires AllHaveType(w, elem, vs) && At(data, pos, WriteItems(w, elem, vs))
    ensures Span(data, ItemObjects(w, elem, vs, pos), pos, pos + |WriteItems(w, elem, vs)|)
    decreases vs
  {
    hide Span, At, HasType, Write, ObjectsOf;
    if vs == [] {
      NoneSpan(data, pos, pos);
    } else {
      var mid := pos + |Write(w, elem, vs[0])|;
      AtSplit(data, pos, Write(w, elem, vs[0]), WriteItems(w, elem, vs[1..]));
      ObjectsSpan(data, w, elem, vs[0], pos);
      ItemsSpan(data, w, elem, vs[1..], mid);
      SpanAppend(data, ObjectsOf(w, elem, vs[0], pos), ItemObjects(w, elem, vs[1..], mid), pos, mid,
                 mid + |WriteItems(w, elem, vs[1..])|);
    }
  }

  lemma {:induction false} FieldsSpan(data: seq<byte>, w: Schema, fields: seq<Field>, vs: seq<Value>, pos: nat)
    requires FieldsHaveType(w, fields, vs) && At(data, pos, WriteFields(w, fields, vs))
    ensures Span(data, FieldObjects(w, fields, vs, pos), pos, pos + |WriteFields(w, fields, vs)|)
    decreases vs
  {
    hide Span, At, HasType, Write, ObjectsOf;
    if vs == [] {
      NoneSpan(data, pos, pos);
    } else {
      var mid := pos + |Write(w, fields[0].ty, vs[0])|;
      AtSplit(data, pos, Write(w, fields[0].ty, vs[0]), WriteFields(w, fields[1..], vs[1..]));
      ObjectsSpan(data, w, fields[0].ty, vs[0], pos);
      FieldsSpan(data, w, fields[1..], vs[1..], mid);
      SpanAppend(data, ObjectsOf(w, fields[0].ty, vs[0], pos), FieldObjects(w, fields[1..], vs[1..], mid), pos, mid,
                 mid + |WriteFields(w, fields[1..], vs[1..])|);
    }
  }

  // ---------------------------------------------------------------- what is read has its objects

  ghost predicate AllHeld(p: Incoming, objs: seq<Listed>)
  {
    forall o :: o in objs ==> Held(p, o)
  }

  lemma HeldParts(p: Incoming, a: seq<Listed>, b: seq<Listed>)
    requires AllHeld(p, a + b)
    ensures AllHeld(p, a) && AllHeld(p, b)
  {
    hide Held;
    assert forall o :: o in a || o in b ==> o in a + b;
  }

  lemma {:induction false} HeldCarried(p: Incoming, w: Schema, ty: Type, v: Value, pos: nat)
    requires HasType(w, ty, v) && AllHeld(p, ObjectsOf(w, ty, v, pos))
    ensures Carried(p, w, ty, v, pos)
    decreases v, 1
  {
    hide HasBody, BodyObjects, BodyCarried, ItemObjects, AllHaveType, AllCarried;
    match ty
    case TFile(_) =>
      if v.FileOf? {
        assert Listed(pos + 8, Some(v.file)) in ObjectsOf(w, ty, v, pos);
      }
    case TBinder(_) =>
      if v.Handle? {
        assert Listed(pos, None) in ObjectsOf(w, ty, v, pos);
      }
    case TNamed(name, _) =>
      if !v.Null? {
        HeldBody(p, w, w[name], v, pos + 4);
      }
    case TArray(elem, _, _) =>
      if v.Items? && !IsPacked(elem) {
        HeldItems(p, w, elem, v.items, pos + 4);
      }
    case _ =>
  }

  lemma {:induction false} HeldBody(p: Incoming, w: Schema, d: Decl, v: Value, pos: nat)
    requires HasBody(w, d, v) && AllHeld(p, BodyObjects(w, d, v, pos))
    ensures BodyCarried(p, w, d, v, pos)
    decreases v, 0
  {
    hide AllHeld, HasType, ObjectsOf, Carried, FieldsHaveType, FieldObjects, FieldsCarried;
    match d
    case Parcelable(fields) => HeldFields(p, w, fields, v.fields, pos + 4);
    case Union(fields) => HeldCarried(p, w, fields[v.tag].ty, v.value, pos + 4);
  }

  lemma {:induction false} HeldItems(p: Incoming, w: Schema, elem: Type, vs: seq<Value>, pos: nat)
    requires AllHaveType(w, elem, vs) && AllHeld(p, ItemObjects(w, elem, vs, pos))
    ensures AllCarried(p, w, elem, vs, pos)
    decreases vs
  {
    hide AllHeld, HasType, ObjectsOf, Carried, Write;
    if vs != [] {
      var mid := pos + |Write(w, elem, vs[0])|;
      HeldParts(p, ObjectsOf(w, elem, vs[0], pos), ItemObjects(w, elem, vs[1..], mid));
      HeldCarried(p, w, elem, vs[0], pos);
      HeldItems(p, w, elem, vs[1..], mid);
    }
  }

  lemma {:induction false} HeldFields(p: Incoming, w: Schema, fields: seq<Field>, vs: seq<Value>, pos: nat)
    requires FieldsHaveType(w, fields, vs) && AllHeld(p, FieldObjects(w, fields, vs, pos))
    ensures FieldsCarried(p, w, fields, vs, pos)
    decreases vs
  {
    hide AllHeld, HasType, ObjectsOf, Carried, Write;
    if vs != [] {
      var mid := pos + |Write(w, fields[0].ty, vs[0])|;
      HeldParts(p, ObjectsOf(w, fields[0].ty, vs[0], pos), FieldObjects(w, fields[1..], vs[1..], mid));
      HeldCarried(p, w, fields[0].ty, vs[0], pos);
      HeldFields(p, w, fields[1..], vs[1..], mid);
    }
  }

  /**
   * A transaction that lists the objects of a value in the order they were written, among those of
   * anything written before and after it, carries it: each descriptor is read with its own file.
   */
  lemma WrittenIsCarried(data: seq<byte>, before: seq<Listed>, after: seq<Listed>, w: Schema, ty: Type, v: Value,
                         pos: nat)
    requires HasType(w, ty, v) && At(data, pos, Write(w, ty, v))
    requires Span(data, before, 0, pos) && Span(data, after, pos + |Write(w, ty, v)|, |data|)
    ensures var objs := before + ObjectsOf(w, ty, v, pos) + after;
            Carried(Received(data, Offsets(objs), Files(objs)), w, ty, v, pos)
  {
    hide Span, HasType, Write, ObjectsOf, Carried, Received, Held;
    var mine, end := ObjectsOf(w, ty, v, pos), pos + |Write(w, ty, v)|;
    var objs := before + mine + after;
    ObjectsSpan(data, w, ty, v, pos);
    SpanAppend(data, before, mine, 0, pos, end);
    SpanAppend(data, before + mine, after, 0, end, |data|);
    NumberingFinds(data, objs, 0, |data|);
    HeldParts(Received(data, Offsets(objs), Files(objs)), before + mine, after);
    HeldParts(Received(data, Offsets(objs), Files(objs)), before, mine);
    HeldCarried(Received(data, Offsets(objs), Files(objs)), w, ty, v, pos);
  }

  /** So a value sent with its list of objects is read back whole, files and binders included. */
  lemma SentRoundTrip(w: Schema, ty: Type, v: Value)
    requires HasType(w, ty, v) && |Write(w, ty, v)| < 0x8000_0000
    ensures var data, objs := Write(w, ty, v), ObjectsOf(w, ty, v, 0);
            var got := ReadValue(w, Received(data, Offsets(objs), Files(objs)), ty, 0, 0);
            if Nesting(v) <= 64 then got == Ok((v, |data|)) else got.Err?
  {
    hide HasType, Write, ObjectsOf, Carried, Nesting, ReadValue;
    var data, objs := Write(w, ty, v), ObjectsOf(w, ty, v, 0);
    NoneSpan(data, 0, 0);
    NoneSpan(data, |data|, |data|);
    WrittenIsCarried(data, [], [], w, ty, v, 0);
    assert [] + objs + [] == objs;
    RoundTrip(w, Received(data, Offsets(objs), Files(objs)), ty, v, 0);
  }
}
