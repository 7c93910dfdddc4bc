/** The generated writers as they run: appending to one buffer, and patching a parcelable's size in afterwards. */
module ParcelWriter {
  import Wrappers
  import opened Bytes
  import opened Parcel
  import opened Wire

  class Writer {
    var data: seq<byte>

    constructor ()
      ensures data == []
    {
      data := [];
    }

    method Append(bytes: seq<byte>)
      modifies this
      ensures data == old(data) + bytes
    {
      data := data + bytes;
    }

    /** A size placeholder; the position it is at. */
    method ParcelableBodyStart() returns (at: nat)
      modifies this
      ensures at == |old(data)| && data == old(data) + I32(0)
    {
      at := |data|;
      data := data + I32(0);
    }

    /** Fill in the size of everything since the placeholder, counting itself. */
    method ParcelableEnd(at: nat)
      requires at + 4 <= |data|
      modifies this
      ensures data == old(data)[..at] + I32(|old(data)| - at) + old(data)[at + 4..]
    {
      var size := |data| - at;
      data := data[..at] + I32(size) + data[at + 4..];
    }

    /** What the statements emitted for a type append is exactly its encoding. */
    method WriteValue(w: Schema, ty: Type, v: Value)
      requires HasType(w, ty, v)
      modifies this
      ensures data == old(data) + Write(w, ty, v)
      decreases v, 1
    {
      hide I32, Padded, Utf16, File, Binder, Packed, ItemBytes, WritePrim, PrimRange, PackedRange, HasBody, WriteBody,
           AllHaveType, WriteItems;
      match ty {
        case TPrim(p) => Append(WritePrim(p, v.n));
        case TEnum(b) => Append(WritePrim(BackingPrim(b), v.n));
        case TString(_) => Append(if v.Null? then I32(-1) else Utf16(v.units));
        case TFile(_) => Append(if v.Null? then I32(0) else File());
        case TBinder(_) => Append(if v.Null? then Binder(Wrappers.None, 0) else Binder(Wrappers.Some(v.handle), 0));
        case TNamed(name, _) =>
          if v.Null? {
            Append(I32(0));
          } else {
            ghost var before := data;
            Append(I32(1));
            WriteBodyOf(w, w[name], v);
            assert data == before + (I32(1) + WriteBody(w, w[name], v));
          }
        case TArray(elem, _, _) =>
          if v.Null? {
            Append(I32(-1));
          } else if IsPacked(elem) {
            Append(Packed(ItemBytes(v.items)));
          } else {
            ghost var before := data;
            Append(I32(|v.items|));
            WriteAll(w, elem, v.items);
            assert data == before + (I32(|v.items|) + WriteItems(w, elem, v.items));
          }
      }
    }

    method WriteBodyOf(w: Schema, d: Decl, v: Value)
      requires HasBody(w, d, v)
      modifies this
      ensures data == old(data) + WriteBody(w, d, v)
      decreases v, 0
    {
      hide I32, HasType, Write, FieldsHaveType, WriteFields;
      ghost var before := data;
      match d {
        case Parcelable(fields) =>
          var at := ParcelableBodyStart();
          WriteFieldsOf(w, fields, v.fields);
          ghost var body := WriteFields(w, fields, v.fields);
          assert data == before + I32(0) + body;
          ParcelableEnd(at);
          assert data == before + I32(4 + |body|) + body;
          assert data == before + (I32(4 + |body|) + body);
        case Union(fields) =>
          Append(I32(v.tag));
          WriteValue(w, fields[v.tag].ty, v.value);
          assert data == before + (I32(v.tag) + Write(w, fields[v.tag].ty, v.value));
      }
    }

    method WriteAll(w: Schema, elem: Type, vs: seq<Value>)
      requires AllHaveType(w, elem, vs)
      modifies this
      ensures data == old(data) + WriteItems(w, elem, vs)
      decreases vs
    {
      hide HasType, Write;
      if vs != [] {
        ghost var before := data;
        WriteValue(w, elem, vs[0]);
        WriteAll(w, elem, vs[1..]);
        assert data == before + (Write(w, elem, vs[0]) + WriteItems(w, elem, vs[1..]));
      }
    }

    method WriteFieldsOf(w: Schema, fields: seq<Field>, vs: seq<Value>)
      requires FieldsHaveType(w, fields, vs)
      modifies this
      ensures data == old(data) + WriteFields(w, fields, vs)
      decreases vs
    {
      hide HasType, Write;
      if vs != [] {
        ghost var before := data;
        WriteValue(w, fields[0].ty, vs[0]);
        WriteFieldsOf(w, fields[1..], vs[1..]);
        assert data == before + (Write(w, fields[0].ty, vs[0]) + WriteFields(w, fields[1..], vs[1..]));
      }
    }
  }
}
