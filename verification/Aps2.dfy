/**
 * Android's packed relocations (`APS2`). The decoder is proved against a reader written on the
 * remaining bytes; the reader is the inverse of an encoder, for every grouping of every list.
 */
module Aps2 {
  import opened Wrappers
  import opened Bytes
  import opened SlebReader

  datatype Reloc = Reloc(offset: int, info: int, addend: int)

  const MAGIC: seq<byte> := [0x41, 0x50, 0x53, 0x32]

  // The group flags are the low bits of a signed integer in two's complement; higher bits are ignored.

  predicate GroupedByInfo(flags: int) { flags % 2 == 1 }
  predicate GroupedByOffsetDelta(flags: int) { flags / 2 % 2 == 1 }
  predicate GroupedByAddend(flags: int) { flags / 4 % 2 == 1 }
  predicate HasAddend(flags: int) { flags / 8 % 2 == 1 }
  predicate AddendPerReloc(flags: int) { HasAddend(flags) && !GroupedByAddend(flags) }
  predicate AddendPerGroup(flags: int) { HasAddend(flags) && GroupedByAddend(flags) }

  datatype Header = Header(flags: int, offsetDelta: int, last: Reloc)

  type Read<T> = Result<(T, seq<byte>), Aps2Error>

  // ---------------------------------------------------------------- what the bytes mean

  /** A field that is in the stream only if `present`. */
  function PopIf(present: bool, s: seq<byte>, default: int): Read<int>
  {
    if present then PopSpec(s) else Ok((default, s))
  }

  /** A group's flags and shared fields; `last` is the relocation before it, updated by them. */
  function ReadHeader(s: seq<byte>, last: Reloc): Read<Header>
  {
    var (flags, s1) :- PopSpec(s);
    var (delta, s2) :- PopIf(GroupedByOffsetDelta(flags), s1, 0);
    var (info, s3) :- PopIf(GroupedByInfo(flags), s2, last.info);
    var (a, s4) :- PopIf(AddendPerGroup(flags), s3, 0);
    var shared := Reloc(last.offset,
                        if GroupedByInfo(flags) then info % TWO64 else info,
                        if HasAddend(flags) then last.addend + a else 0);
    Ok((Header(flags, delta, shared), s4))
  }

  function ReadReloc(s: seq<byte>, h: Header): Read<Reloc>
  {
    var (delta, s1) :- PopIf(!GroupedByOffsetDelta(h.flags), s, h.offsetDelta);
    var (info, s2) :- PopIf(!GroupedByInfo(h.flags), s1, h.last.info);
    var (a, s3) :- PopIf(AddendPerReloc(h.flags), s2, 0);
    var x := Reloc((h.last.offset + delta) % TWO64,
                   if GroupedByInfo(h.flags) then info else info % TWO64,
                   h.last.addend + a);
    Ok((x, s3))
  }

  function ReadRelocs(s: seq<byte>, n: nat, h: Header): (r: Read<seq<Reloc>>)
    ensures r.Ok? ==> |r.value.0| == n
    decreases n
  {
    if n == 0 then Ok(([], s))
    else
      var (x, s1) :- ReadReloc(s, h);
      var (xs, s2) :- ReadRelocs(s1, n - 1, h.(last := x));
      Ok(([x] + xs, s2))
  }

  function ReadGroup(s: seq<byte>, last: Reloc): (r: Read<seq<Reloc>>)
    ensures r.Ok? ==> r.value.0 != []
  {
    var (n, s1) :- PopSpec(s);
    if n <= 0 then Err(GroupSize)
    else
      var (h, s2) :- ReadHeader(s1, last);
      ReadRelocs(s2, n, h)
  }

  /** Groups, until at least `wanted` more relocations have been read. */
  function ReadGroups(s: seq<byte>, wanted: int, last: Reloc): Read<seq<Reloc>>
    decreases wanted
  {
    if wanted <= 0 then Ok(([], s))
    else
      var (xs, s1) :- ReadGroup(s, last);
      var (ys, s2) :- ReadGroups(s1, wanted - |xs|, xs[|xs| - 1]);
      Ok((xs + ys, s2))
  }

  function ReadBlob(blob: seq<byte>): Read<seq<Reloc>>
  {
    if !(MAGIC <= blob) then Err(BadMagic)
    else
      var (declared, s1) :- PopSpec(blob[4..]);
      if declared < 0 then Err(NegativeCount)
      else
        var (offset, s2) :- PopSpec(s1);
        ReadGroups(s2, declared, Reloc(offset, 0, 0))
  }

  /** Every byte must have been consumed. */
  function Decode(blob: seq<byte>): Result<seq<Reloc>, Aps2Error>
  {
    var (xs, rest) :- ReadBlob(blob);
    if rest == [] then Ok(xs) else Err(Trailing)
  }

  // ---------------------------------------------------------------- encoding

  datatype Group = Group(flags: int, offsetDelta: int, relocs: seq<Reloc>)

  predicate Int64(v: int) { -TWO63 <= v < TWO63 }

  predicate Word64(v: int) { 0 <= v < TWO64 }

  /** `x` may follow `last` in a group with these flags. */
  predicate LegalReloc(g: Group, shared: Reloc, last: Reloc, x: Reloc)
  {
    && Word64(x.offset) && Word64(x.info)
    && (GroupedByOffsetDelta(g.flags) ==> x.offset == (last.offset + g.offsetDelta) % TWO64)
    && (GroupedByInfo(g.flags) ==> x.info == shared.info)
    && (if AddendPerReloc(g.flags) then Int64(x.addend - last.addend)
        else if AddendPerGroup(g.flags) then x.addend == shared.addend
        else x.addend == 0)
  }

  predicate LegalRelocs(g: Group, shared: Reloc, last: Reloc, xs: seq<Reloc>)
    decreases |xs|
  {
    xs == [] || (LegalReloc(g, shared, last, xs[0]) && LegalRelocs(g, shared, xs[0], xs[1..]))
  }

  predicate LegalGroup(g: Group, last: Reloc)
  {
    && Int64(g.flags) && Int64(g.offsetDelta)
    && 0 < |g.relocs| < TWO63
    && (AddendPerGroup(g.flags) ==> Int64(g.relocs[0].addend - last.addend))
    && LegalRelocs(g, g.relocs[0], last, g.relocs)
  }

  predicate LegalGroups(gs: seq<Group>, last: Reloc)
  {
    gs == [] || (LegalGroup(gs[0], last) && LegalGroups(gs[1..], gs[0].relocs[|gs[0].relocs| - 1]))
  }

  function Flatten(gs: seq<Group>): seq<Reloc>
  {
    if gs == [] then [] else gs[0].relocs + Flatten(gs[1..])
  }

  /** A field that is in the stream only when the group does not share it (or only when it does). */
  function Field(present: bool, v: int): seq<byte>
  {
    if present then EncodeSleb(v) else []
  }

  function EncodeReloc(flags: int, last: Reloc, x: Reloc): seq<byte>
  {
    Field(!GroupedByOffsetDelta(flags), Fold64(x.offset - last.offset)) +
    (Field(!GroupedByInfo(flags), Fold64(x.info)) +
     Field(AddendPerReloc(flags), x.addend - last.addend))
  }

  function EncodeRelocs(flags: int, last: Reloc, xs: seq<Reloc>): seq<byte>
    decreases |xs|
  {
    if xs == [] then [] else EncodeReloc(flags, last, xs[0]) + EncodeRelocs(flags, xs[0], xs[1..])
  }

  function EncodeHeader(g: Group, last: Reloc): seq<byte>
    requires g.relocs != []
  {
    EncodeSleb(g.flags) +
    (Field(GroupedByOffsetDelta(g.flags), g.offsetDelta) +
     (Field(GroupedByInfo(g.flags), Fold64(g.relocs[0].info)) +
      Field(AddendPerGroup(g.flags), g.relocs[0].addend - last.addend)))
  }

  function EncodeGroup(g: Group, last: Reloc): seq<byte>
    requires g.relocs != []
  {
    EncodeSleb(|g.relocs|) + (EncodeHeader(g, last) + EncodeRelocs(g.flags, last, g.relocs))
  }

  function EncodeGroups(gs: seq<Group>, last: Reloc): seq<byte>
    requires LegalGroups(gs, last)
  {
    if gs == [] then []
    else EncodeGroup(gs[0], last) + EncodeGroups(gs[1..], gs[0].relocs[|gs[0].relocs| - 1])
  }

  /** A blob: the magic, the relocation count, the offset the first delta applies to, the groups. */
  function Encode(start: int, gs: seq<Group>): seq<byte>
    requires LegalGroups(gs, Reloc(start, 0, 0))
  {
    MAGIC + (EncodeSleb(|Flatten(gs)|) + (EncodeSleb(start) + EncodeGroups(gs, Reloc(start, 0, 0))))
  }

  // ---------------------------------------------------------------- the round trip

  lemma PopField(present: bool, v: int, default: int, rest: seq<byte>)
    requires Int64(v)
    ensures PopIf(present, Field(present, v) + rest, default) == Ok((if present then v else default, rest))
  {
    if present {
      PopEncoded(v, rest);
    } else {
      assert Field(present, v) + rest == rest;
    }
  }

  /** What a field left out would have held does not matter. */
  lemma FieldAbsent(present: bool, v: int)
    ensures Field(present, if present then v else 0) == Field(present, v)
  {
  }

  lemma FoldBack(v: int, base: int)
    requires Word64(v)
    ensures (base + Fold64(v - base)) % TWO64 == v
  {
  }

  lemma RelocRoundTrip(g: Group, shared: Reloc, last: Reloc, x: Reloc, h: Header, rest: seq<byte>)
    requires LegalReloc(g, shared, last, x) && h.flags == g.flags
    requires h.last.offset == last.offset &&
             h.offsetDelta == (if GroupedByOffsetDelta(g.flags) then g.offsetDelta else 0)
    requires GroupedByInfo(g.flags) ==> h.last.info == shared.info
    requires h.last.addend ==
             if AddendPerReloc(g.flags) then last.addend else if AddendPerGroup(g.flags) then shared.addend else 0
    ensures ReadReloc(EncodeReloc(g.flags, last, x) + rest, h) == Ok((x, rest))
  {
    hide PopSpec, PopIf, Fold64, Field, GroupedByInfo, GroupedByOffsetDelta, AddendPerReloc, AddendPerGroup;
    var f1 := Fold64(x.offset - last.offset);
    var f2 := Fold64(x.info);
    var f3 := if AddendPerReloc(g.flags) then x.addend - last.addend else 0;
    var e1 := Field(!GroupedByOffsetDelta(g.flags), f1);
    var e2 := Field(!GroupedByInfo(g.flags), f2);
    var e3 := Field(AddendPerReloc(g.flags), f3);
    FieldAbsent(AddendPerReloc(g.flags), x.addend - last.addend);
    assert EncodeReloc(g.flags, last, x) + rest == e1 + (e2 + (e3 + rest));
    PopField(!GroupedByOffsetDelta(g.flags), f1, h.offsetDelta, e2 + (e3 + rest));
    PopField(!GroupedByInfo(g.flags), f2, h.last.info, e3 + rest);
    PopField(AddendPerReloc(g.flags), f3, 0, rest);
    FoldBack(x.offset, last.offset);
    FoldBack(x.info, 0);
  }

  lemma {:induction false} RelocsRoundTrip(g: Group, shared: Reloc, last: Reloc, xs: seq<Reloc>, h: Header,
                                           rest: seq<byte>)
    requires LegalRelocs(g, shared, last, xs) && h.flags == g.flags
    requires h.last.offset == last.offset &&
             h.offsetDelta == (if GroupedByOffsetDelta(g.flags) then g.offsetDelta else 0)
    requires GroupedByInfo(g.flags) ==> h.last.info == shared.info
    requires h.last.addend ==
             if AddendPerReloc(g.flags) then last.addend else if AddendPerGroup(g.flags) then shared.addend else 0
    ensures ReadRelocs(EncodeRelocs(g.flags, last, xs) + rest, |xs|, h) == Ok((xs, rest))
    decreases |xs|
  {
    if xs == [] {
      assert EncodeRelocs(g.flags, last, xs) + rest == rest;
    } else {
      var tail := EncodeRelocs(g.flags, xs[0], xs[1..]);
      assert EncodeRelocs(g.flags, last, xs) + rest == EncodeReloc(g.flags, last, xs[0]) + (tail + rest);
      RelocRoundTrip(g, shared, last, xs[0], h, tail + rest);
      RelocsRoundTrip(g, shared, xs[0], xs[1..], h.(last := xs[0]), rest);
      assert [xs[0]] + xs[1..] == xs;
    }
  }

  lemma FirstLegal(g: Group, last: Reloc)
    requires LegalGroup(g, last)
    ensures g.relocs != [] && Word64(g.relocs[0].info) && Int64(g.flags)
    ensures Int64(g.offsetDelta)
    ensures AddendPerGroup(g.flags) ==> Int64(g.relocs[0].addend - last.addend)
    ensures HasAddend(g.flags) <==> AddendPerReloc(g.flags) || AddendPerGroup(g.flags)
    ensures !AddendPerReloc(g.flags) || !AddendPerGroup(g.flags)
  {
  }

  lemma HeaderRoundTrip(g: Group, last: Reloc, rest: seq<byte>)
    requires LegalGroup(g, last)
    ensures var x := g.relocs[0];
            ReadHeader(EncodeHeader(g, last) + rest, last) ==
            Ok((Header(g.flags, if GroupedByOffsetDelta(g.flags) then g.offsetDelta else 0,
                       Reloc(last.offset,
                             if GroupedByInfo(g.flags) then x.info else last.info,
                             if AddendPerReloc(g.flags) then last.addend
                             else if AddendPerGroup(g.flags) then x.addend else 0)),
                rest))
  {
    hide PopSpec, PopIf, Fold64, Field, LegalGroup, EncodeSleb, GroupedByInfo, GroupedByOffsetDelta, AddendPerReloc,
         AddendPerGroup, HasAddend;
    FirstLegal(g, last);
    var x := g.relocs[0];
    var f3 := if AddendPerGroup(g.flags) then x.addend - last.addend else 0;
    var e1 := Field(GroupedByOffsetDelta(g.flags), g.offsetDelta);
    var e2 := Field(GroupedByInfo(g.flags), Fold64(x.info));
    var e3 := Field(AddendPerGroup(g.flags), f3);
    FieldAbsent(AddendPerGroup(g.flags), x.addend - last.addend);
    assert EncodeHeader(g, last) + rest == EncodeSleb(g.flags) + (e1 + (e2 + (e3 + rest)));
    FoldBack(x.info, 0);
    PopEncoded(g.flags, e1 + (e2 + (e3 + rest)));
    PopField(GroupedByOffsetDelta(g.flags), g.offsetDelta, 0, e2 + (e3 + rest));
    PopField(GroupedByInfo(g.flags), Fold64(x.info), last.info, e3 + rest);
    PopField(AddendPerGroup(g.flags), f3, 0, rest);
  }

  lemma GroupRoundTrip(g: Group, last: Reloc, rest: seq<byte>)
    requires LegalGroup(g, last)
    ensures ReadGroup(EncodeGroup(g, last) + rest, last) == Ok((g.relocs, rest))
  {
    var n := |g.relocs|;
    var body := EncodeRelocs(g.flags, last, g.relocs) + rest;
    assert EncodeGroup(g, last) + rest == EncodeSleb(n) + (EncodeHeader(g, last) + body);
    PopEncoded(n, EncodeHeader(g, last) + body);
    HeaderRoundTrip(g, last, body);
    var h := ReadHeader(EncodeHeader(g, last) + body, last).value.0;
    RelocsRoundTrip(g, g.relocs[0], last, g.relocs, h, rest);
  }

  lemma {:induction false} GroupsRoundTrip(gs: seq<Group>, last: Reloc, rest: seq<byte>)
    requires LegalGroups(gs, last)
    ensures ReadGroups(EncodeGroups(gs, last) + rest, |Flatten(gs)|, last) == Ok((Flatten(gs), rest))
    decreases |gs|
  {
    hide ReadGroup, EncodeGroup;
    if gs == [] {
      assert EncodeGroups(gs, last) + rest == rest;
    } else {
      var g := gs[0];
      var next := g.relocs[|g.relocs| - 1];
      var more := EncodeGroups(gs[1..], next) + rest;
      assert EncodeGroups(gs, last) + rest == EncodeGroup(g, last) + more;
      GroupRoundTrip(g, last, more);
      GroupsRoundTrip(gs[1..], next, rest);
    }
  }

  /** Decoding undoes encoding, however the relocations are grouped, and consumes every byte. */
  lemma RoundTrip(start: int, gs: seq<Group>)
    requires Int64(start) && LegalGroups(gs, Reloc(start, 0, 0)) && |Flatten(gs)| < TWO63
    ensures Decode(Encode(start, gs)) == Ok(Flatten(gs))
  {
    var last := Reloc(start, 0, 0);
    var groups := EncodeGroups(gs, last);
    var n := |Flatten(gs)|;
    assert Encode(start, gs)[4..] == EncodeSleb(n) + (EncodeSleb(start) + groups);
    PopEncoded(n, EncodeSleb(start) + groups);
    PopEncoded(start, groups);
    GroupsRoundTrip(gs, last, []);
    assert groups + [] == groups;
  }

  // ---------------------------------------------------------------- every list has a grouping

  lemma PlainRelocLegal(g: Group, shared: Reloc, last: Reloc, x: Reloc)
    requires g.flags == 8 && Word64(x.offset) && Word64(x.info) && Int64(x.addend - last.addend)
    ensures LegalReloc(g, shared, last, x)
  {
  }

  /** One group with every field written out per relocation is always legal. */
  lemma {:induction false} PlainRelocsLegal(g: Group, shared: Reloc, last: Reloc, xs: seq<Reloc>)
    requires g.flags == 8
    requires forall x :: x in xs ==> Word64(x.offset) && Word64(x.info)
    requires xs != [] ==> Int64(xs[0].addend - last.addend)
    requires forall i :: 0 < i < |xs| ==> Int64(xs[i].addend - xs[i - 1].addend)
    ensures LegalRelocs(g, shared, last, xs)
    decreases |xs|
  {
    hide LegalReloc, Word64, Int64;
    if xs != [] {
      assert xs[0] in xs;
      PlainRelocLegal(g, shared, last, xs[0]);
      assert forall i :: 0 < i < |xs[1..]| ==> xs[1..][i] == xs[i + 1] && xs[1..][i - 1] == xs[i];
      PlainRelocsLegal(g, shared, xs[0], xs[1..]);
    }
  }

  lemma EveryListEncodes(start: int, xs: seq<Reloc>) returns (gs: seq<Group>)
    requires Int64(start) && |xs| < TWO63
    requires forall x :: x in xs ==>
                         0 <= x.offset < 0x1_0000_0000_0000_0000 && 0 <= x.info < 0x1_0000_0000_0000_0000
    requires xs != [] ==> Int64(xs[0].addend)
    requires forall i :: 0 < i < |xs| ==> Int64(xs[i].addend - xs[i - 1].addend)
    ensures LegalGroups(gs, Reloc(start, 0, 0)) && Flatten(gs) == xs
    ensures Decode(Encode(start, gs)) == Ok(xs)
  {
    gs := if xs == [] then [] else [Group(8, 0, xs)];
    if xs != [] {
      PlainRelocsLegal(gs[0], xs[0], Reloc(start, 0, 0), xs);
      assert Flatten(gs) == xs + Flatten([]);
    }
    RoundTrip(start, gs);
  }

  // ---------------------------------------------------------------- no accepted blob extends another

  lemma PopLocal(s: seq<byte>, more: seq<byte>)
    requires PopSpec(s).Ok?
    ensures PopSpec(s + more) == Ok((PopSpec(s).value.0, PopSpec(s).value.1 + more))
  {
    ReadSlebLocal(s, more);
  }

  lemma PopIfLocal(present: bool, s: seq<byte>, default: int, more: seq<byte>)
    requires PopIf(present, s, default).Ok?
    ensures var (v, rest) := PopIf(present, s, default).value;
            PopIf(present, s + more, default) == Ok((v, rest + more))
  {
    if present {
      PopLocal(s, more);
    }
  }

  lemma HeaderLocal(s: seq<byte>, last: Reloc, more: seq<byte>)
    requires ReadHeader(s, last).Ok?
    ensures ReadHeader(s + more, last) == Ok((ReadHeader(s, last).value.0, ReadHeader(s, last).value.1 + more))
  {
    hide PopSpec, PopIf;
    PopLocal(s, more);
    var (flags, s1) := PopSpec(s).value;
    PopIfLocal(GroupedByOffsetDelta(flags), s1, 0, more);
    var (delta, s2) := PopIf(GroupedByOffsetDelta(flags), s1, 0).value;
    PopIfLocal(GroupedByInfo(flags), s2, last.info, more);
    var (info, s3) := PopIf(GroupedByInfo(flags), s2, last.info).value;
    PopIfLocal(AddendPerGroup(flags), s3, 0, more);
  }

  lemma RelocLocal(s: seq<byte>, h: Header, more: seq<byte>)
    requires ReadReloc(s, h).Ok?
    ensures ReadReloc(s + more, h) == Ok((ReadReloc(s, h).value.0, ReadReloc(s, h).value.1 + more))
  {
    hide PopIf;
    PopIfLocal(!GroupedByOffsetDelta(h.flags), s, h.offsetDelta, more);
    var (delta, s1) := PopIf(!GroupedByOffsetDelta(h.flags), s, h.offsetDelta).value;
    PopIfLocal(!GroupedByInfo(h.flags), s1, h.last.info, more);
    var (info, s2) := PopIf(!GroupedByInfo(h.flags), s1, h.last.info).value;
    PopIfLocal(AddendPerReloc(h.flags), s2, 0, more);
  }

  lemma {:induction false} RelocsLocal(s: seq<byte>, n: nat, h: Header, more: seq<byte>)
    requires ReadRelocs(s, n, h).Ok?
    ensures ReadRelocs(s + more, n, h) == Ok((ReadRelocs(s, n, h).value.0, ReadRelocs(s, n, h).value.1 + more))
    decreases n
  {
    if n > 0 {
      RelocLocal(s, h, more);
      var (x, s1) := ReadReloc(s, h).value;
      RelocsLocal(s1, n - 1, h.(last := x), more);
    }
  }

  lemma GroupLocal(s: seq<byte>, last: Reloc, more: seq<byte>)
    requires ReadGroup(s, last).Ok?
    ensures ReadGroup(s + more, last) == Ok((ReadGroup(s, last).value.0, ReadGroup(s, last).value.1 + more))
  {
    PopLocal(s, more);
    var (n, s1) := PopSpec(s).value;
    HeaderLocal(s1, last, more);
    var (h, s2) := ReadHeader(s1, last).value;
    RelocsLocal(s2, n, h, more);
  }

  lemma {:induction false} GroupsLocal(s: seq<byte>, wanted: int, last: Reloc, more: seq<byte>)
    requires ReadGroups(s, wanted, last).Ok?
    ensures ReadGroups(s + more, wanted, last)
         == Ok((ReadGroups(s, wanted, last).value.0, ReadGroups(s, wanted, last).value.1 + more))
    decreases wanted
  {
    hide ReadGroup;
    if wanted > 0 {
      GroupLocal(s, last, more);
      var (xs, s1) := ReadGroup(s, last).value;
      GroupsLocal(s1, wanted - |xs|, xs[|xs| - 1], more);
    }
  }

  /** Bytes after a complete blob are always noticed: no accepted blob is a proper prefix of another. */
  lemma SuffixRejected(blob: seq<byte>, more: seq<byte>)
    requires Decode(blob).Ok? && more != []
    ensures Decode(blob + more) == Err(Trailing)
  {
    assert (blob + more)[4..] == blob[4..] + more;
    assert MAGIC <= blob + more;
    PopLocal(blob[4..], more);
    var (declared, s1) := PopSpec(blob[4..]).value;
    PopLocal(s1, more);
    var (offset, s2) := PopSpec(s1).value;
    GroupsLocal(s2, declared, Reloc(offset, 0, 0), more);
  }

  // ---------------------------------------------------------------- the decoder

  method DecodeAps2(blob: seq<byte>) returns (r: Result<seq<Reloc>, Aps2Error>)
    ensures r == Decode(blob)
  {
    hide ReadGroup, PopSpec;
    if !(MAGIC <= blob) {
      return Err(BadMagic);
    }
    var dec := new Sleb128(blob[4..]);
    assert dec.data[dec.pos..] == blob[4..];
    var declared :- dec.Pop();
    if declared < 0 {
      return Err(NegativeCount);
    }
    var offset :- dec.Pop();
    var last := Reloc(offset, 0, 0);
    ghost var groups := dec.data[dec.pos..];
    ghost var first := last;
    var out: seq<Reloc> := [];
    assert Continues(ReadGroups(groups, declared, first), out, ReadGroups(groups, declared, first)) by {
      if ReadGroups(groups, declared, first).Ok? {
        var xs := ReadGroups(groups, declared, first).value.0;
        assert [] + xs == xs;
      }
    }
    while |out| < declared
      invariant fresh(dec) && dec.Valid()
      invariant Continues(ReadGroups(groups, declared, first), out,
                          ReadGroups(dec.data[dec.pos..], declared - |out|, last))
      decreases declared - |out|
    {
      var xs :- PopGroup(dec, last);
      last := xs[|xs| - 1];
      Regroup(out, xs, ReadGroups(dec.data[dec.pos..], declared - |out| - |xs|, last));
      out := out + xs;
    }
    assert out + [] == out;
    if dec.pos != |dec.data| {
      return Err(Trailing);
    }
    return Ok(out);
  }

  /** `whole` is what has been read so far, then whatever `rest` reads. */
  ghost predicate Continues(whole: Read<seq<Reloc>>, got: seq<Reloc>, rest: Read<seq<Reloc>>)
  {
    match rest
    case Err(e) => whole == Err(e)
    case Ok((xs, s)) => whole == Ok((got + xs, s))
  }

  lemma Regroup(got: seq<Reloc>, xs: seq<Reloc>, rest: Read<seq<Reloc>>)
    ensures rest.Ok? ==> (got + xs) + rest.value.0 == got + (xs + rest.value.0)
  {
  }

  method PopGroup(dec: Sleb128, last: Reloc) returns (r: Result<seq<Reloc>, Aps2Error>)
    requires dec.Valid()
    modifies dec
    ensures dec.Valid()
    ensures match ReadGroup(dec.data[old(dec.pos)..], last)
            case Ok((xs, rest)) => r == Ok(xs) && xs != [] && dec.data[dec.pos..] == rest
            case Err(e) => r == Err(e)
  {
    var size :- dec.Pop();
    if size <= 0 {
      return Err(GroupSize);
    }
    var h :- PopHeader(dec, last);
    ghost var body := dec.data[dec.pos..];
    ghost var shared := h;
    var xs: seq<Reloc> := [];
    assert Continues(ReadRelocs(body, size, shared), xs, ReadRelocs(body, size, h)) by {
      if ReadRelocs(body, size, shared).Ok? {
        var ys := ReadRelocs(body, size, shared).value.0;
        assert [] + ys == ys;
      }
    }
    for k := 0 to size
      invariant dec.Valid() && |xs| == k
      invariant Continues(ReadRelocs(body, size, shared), xs, ReadRelocs(dec.data[dec.pos..], size - k, h))
    {
      var x :- PopReloc(dec, h);
      h := h.(last := x);
      Regroup(xs, [x], ReadRelocs(dec.data[dec.pos..], size - k - 1, h));
      xs := xs + [x];
    }
    assert xs + [] == xs;
    return Ok(xs);
  }

  method PopHeader(dec: Sleb128, last: Reloc) returns (r: Result<Header, Aps2Error>)
    requires dec.Valid()
    modifies dec
    ensures dec.Valid()
    ensures match ReadHeader(dec.data[old(dec.pos)..], last)
            case Ok((h, rest)) => r == Ok(h) && dec.data[dec.pos..] == rest
            case Err(e) => r == Err(e)
  {
    var flags :- dec.Pop();
    var delta := 0;
    if GroupedByOffsetDelta(flags) {
      delta :- dec.Pop();
    }
    var info := last.info;
    if GroupedByInfo(flags) {
      info :- dec.Pop();
      info := info % TWO64;
    }
    var addend := last.addend;
    if AddendPerReloc(flags) {
    } else if AddendPerGroup(flags) {
      var a :- dec.Pop();
      addend := addend + a;
    } else {
      addend := 0;
    }
    return Ok(Header(flags, delta, Reloc(last.offset, info, addend)));
  }

  method PopReloc(dec: Sleb128, h: Header) returns (r: Result<Reloc, Aps2Error>)
    requires dec.Valid()
    modifies dec
    ensures dec.Valid()
    ensures match ReadReloc(dec.data[old(dec.pos)..], h)
            case Ok((x, rest)) => r == Ok(x) && dec.data[dec.pos..] == rest
            case Err(e) => r == Err(e)
  {
    var delta := h.offsetDelta;
    if !GroupedByOffsetDelta(h.flags) {
      delta :- dec.Pop();
    }
    var info := h.last.info;
    if !GroupedByInfo(h.flags) {
      info :- dec.Pop();
      info := info % TWO64;
    }
    var addend := h.last.addend;
    if AddendPerReloc(h.flags) {
      var a :- dec.Pop();
      addend := addend + a;
    }
    return Ok(Reloc((h.last.offset + delta) % TWO64, info, addend));
  }
}
