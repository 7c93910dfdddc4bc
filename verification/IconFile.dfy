/** The icon as a file, and as a compiled Windows resource of icons, their group and the version information. */
module IconFile {
  import opened Wrappers
  import opened Bytes
  import opened VersionInfo

  /** An image: its size in pixels (256 is written as 0) and its bytes. */
  datatype Image = Image(z: nat, data: seq<byte>)

  function Field(s: seq<byte>, o: nat, w: nat): nat
    requires o + w <= |s|
  {
    FromLe(s[o..o + w])
  }

  // ---------------------------------------------------------------- resource entries

  datatype Entry = Entry(kind: nat, name: nat, flags: nat, data: seq<byte>)

  predicate Fits(e: Entry)
  {
    e.kind < 0x10000 && e.name < 0x10000 && e.flags < 0x10000 && |e.data| < TWO32
  }

  /** The 32 bytes before an entry's data. */
  function EntryHead(e: Entry): (s: seq<byte>)
    ensures |s| == 32
  {
    (Le(|e.data|, 4) + Le(32, 4)) + ((Le(0xFFFF, 2) + Le(e.kind, 2)) + (Le(0xFFFF, 2) + Le(e.name, 2)))
    + ((Le(0, 4) + Le(e.flags, 2)) + (Le(0x0409, 2) + (Le(0, 4) + Le(0, 4))))
  }

  function EncodeEntry(e: Entry): (s: seq<byte>)
    ensures |s| == 32 + Align(|e.data|)
  {
    EntryHead(e) + Padded(e.data)
  }

  function EncodeEntries(es: seq<Entry>): seq<byte>
  {
    if es == [] then [] else EncodeEntry(es[0]) + EncodeEntries(es[1..])
  }

  /** The entries of a resource file, walked by their own size fields; None where one is cut short. */
  function Walk(s: seq<byte>): Option<seq<Entry>>
    decreases |s|
  {
    if s == [] then Some([])
    else if |s| < 32 || Field(s, 4, 4) != 32 then None
    else
      var n := Field(s, 0, 4);
      if 32 + Align(n) > |s| then None
      else
        var more :- Walk(s[32 + Align(n)..]);
        Some([Entry(Field(s, 10, 2), Field(s, 14, 2), Field(s, 20, 2), s[32..32 + n])] + more)
  }

  lemma TwoBytes(n: nat)
    ensures Le(n, 2) == [n % 256, n / 256 % 256]
  {
    assert Le(n / 256, 1) == [n / 256 % 256] + Le(n / 256 / 256, 0);
  }

  lemma FourBytes(n: nat)
    requires n < 256
    ensures Le(n, 4) == [n, 0, 0, 0]
  {
    assert Le(0, 1) == [0] + Le(0, 0) && Le(0, 2) == [0] + Le(0, 1) && Le(0, 3) == [0] + Le(0, 2);
    assert Le(n, 4) == [n] + Le(0, 3);
  }

  /** An entry's head: its data's length, 32, its kind and name as numbers, no version, its flags, US English. */
  lemma HeadBytes(e: Entry)
    ensures EntryHead(e) ==
            (Le(|e.data|, 4) + [32, 0, 0, 0]) + (([0xff, 0xff] + Le(e.kind, 2)) + ([0xff, 0xff] + Le(e.name, 2)))
            + (([0, 0, 0, 0] + Le(e.flags, 2)) + ([0x09, 0x04] + ([0, 0, 0, 0] + [0, 0, 0, 0])))
  {
    hide Le;
    HeadWords();
  }

  lemma HeadWords()
    ensures Le(32, 4) == [32, 0, 0, 0] && Le(0, 4) == [0, 0, 0, 0]
    ensures Le(0xffff, 2) == [0xff, 0xff] && Le(0x0409, 2) == [0x09, 0x04]
  {
    FourBytes(32);
    FourBytes(0);
    TwoBytes(0xffff);
    TwoBytes(0x0409);
  }

  lemma HeadSizes(e: Entry)
    requires Fits(e)
    ensures var h := EntryHead(e); Field(h, 0, 4) == |e.data| && Field(h, 4, 4) == 32
  {
    Powers();
    LeRoundTrip(|e.data|, 4);
    LeRoundTrip(32, 4);
    hide Le, FromLe, Pow256;
    var h := EntryHead(e);
    assert h[0..4] == Le(|e.data|, 4) && h[4..8] == Le(32, 4);
  }

  lemma HeadNames(e: Entry)
    requires Fits(e)
    ensures var h := EntryHead(e); Field(h, 10, 2) == e.kind && Field(h, 14, 2) == e.name && Field(h, 20, 2) == e.flags
  {
    Powers();
    LeRoundTrip(e.kind, 2);
    LeRoundTrip(e.name, 2);
    LeRoundTrip(e.flags, 2);
    hide Le, FromLe, Pow256;
    var h := EntryHead(e);
    assert h[10..12] == Le(e.kind, 2) && h[14..16] == Le(e.name, 2);
    assert h[20..22] == Le(e.flags, 2);
  }

  lemma FieldKept(h: seq<byte>, rest: seq<byte>, o: nat, w: nat)
    requires o + w <= |h|
    ensures Field(h + rest, o, w) == Field(h, o, w)
  {
    assert (h + rest)[o..o + w] == h[o..o + w];
  }

  /** One entry, whatever follows it. */
  lemma EntryWalked(e: Entry, rest: seq<byte>, more: seq<Entry>)
    requires Fits(e) && Walk(rest) == Some(more)
    ensures Walk(EncodeEntry(e) + rest) == Some([e] + more)
  {
    hide EntryHead, Field, Le, FromLe, Zeros, Align;
    HeadSizes(e);
    HeadNames(e);
    var h, body := EntryHead(e), Padded(e.data) + rest;
    var s := EncodeEntry(e) + rest;
    assert s == h + body;
    FieldKept(h, body, 0, 4);
    FieldKept(h, body, 4, 4);
    FieldKept(h, body, 10, 2);
    FieldKept(h, body, 14, 2);
    FieldKept(h, body, 20, 2);
    assert s[32..32 + |e.data|] == e.data;
    assert s[32 + Align(|e.data|)..] == rest;
  }

  /** Walking a resource file by its size fields recovers every entry. */
  lemma {:induction false} WalkRecovers(es: seq<Entry>)
    requires forall i :: 0 <= i < |es| ==>
                           && es[i].kind <= 0xffff && es[i].name <= 0xffff && es[i].flags <= 0xffff
                           && |es[i].data| <= 0xffff_ffff
    ensures Walk(EncodeEntries(es)) == Some(es)
  {
    hide EncodeEntry, Walk;
    if es == [] {
      NothingWalked();
    } else {
      WalkRecovers(es[1..]);
      EntryWalked(es[0], EncodeEntries(es[1..]), es[1..]);
      assert [es[0]] + es[1..] == es;
    }
  }

  lemma NothingWalked()
    ensures Walk([]) == Some([])
  {
  }

  // ---------------------------------------------------------------- the resource file

  const RT_ICON := 3
  const RT_GROUP_ICON := 14
  const RT_VERSION := 16

  /** A group directory's row: an icon's size, length and number. */
  function GroupRow(x: Image, id: nat): (s: seq<byte>)
    ensures |s| == 14
  {
    ([x.z % 256, x.z % 256, 0, 0] + (Le(1, 2) + Le(32, 2))) + (Le(|x.data|, 4) + Le(id, 2))
  }

  function GroupRows(xs: seq<Image>, n: nat): (s: seq<byte>)
    requires n <= |xs|
    ensures |s| == 14 * n
  {
    if n == 0 then [] else GroupRows(xs, n - 1) + GroupRow(xs[n - 1], n)
  }

  function Group(xs: seq<Image>, n: nat): seq<byte>
    requires n <= |xs|
  {
    (Le(0, 2) + Le(1, 2) + Le(|xs|, 2)) + GroupRows(xs, n)
  }

  function IconEntries(xs: seq<Image>, n: nat): seq<Entry>
    requires n <= |xs|
  {
    if n == 0 then [] else IconEntries(xs, n - 1) + [Entry(RT_ICON, n, 0x1010, xs[n - 1].data)]
  }

  /** An empty entry, each icon, their group, and the version information. */
  function AllEntries(xs: seq<Image>, version: seq<byte>): seq<Entry>
  {
    [Entry(0, 0, 0, [])] + IconEntries(xs, |xs|) + [Entry(RT_GROUP_ICON, 1, 0x1030, Group(xs, |xs|))] +
      [Entry(RT_VERSION, 1, 0x0030, version)]
  }

  lemma {:induction false} EntriesAppend(es: seq<Entry>, e: Entry)
    ensures EncodeEntries(es + [e]) == EncodeEntries(es) + EncodeEntry(e)
  {
    hide EncodeEntry;
    if es == [] {
      assert EncodeEntries([e]) == EncodeEntry(e) + EncodeEntries([e][1..]);
    } else {
      assert (es + [e])[1..] == es[1..] + [e];
      EntriesAppend(es[1..], e);
      assert EncodeEntry(es[0]) + (EncodeEntries(es[1..]) + EncodeEntry(e)) == EncodeEntries(es) + EncodeEntry(e);
    }
  }

  method Res(xs: seq<Image>, version: seq<byte>) returns (out: seq<byte>)
    ensures out == EncodeEntries(AllEntries(xs, version))
  {
    hide EncodeEntry, GroupRow, Le;
    ghost var es := [Entry(0, 0, 0, [])];
    out := EncodeEntry(Entry(0, 0, 0, []));
    EntriesAppend([], Entry(0, 0, 0, []));
    assert [] + es == es && EncodeEntries([]) + out == out;
    var group := Le(0, 2) + Le(1, 2) + Le(|xs|, 2);
    assert group + [] == group;
    for i := 0 to |xs|
      invariant es == [Entry(0, 0, 0, [])] + IconEntries(xs, i) && out == EncodeEntries(es) && group == Group(xs, i)
    {
      var e := Entry(RT_ICON, i + 1, 0x1010, xs[i].data);
      EntriesAppend(es, e);
      GroupStep(xs, i);
      es := es + [e];
      out := out + EncodeEntry(e);
      group := group + GroupRow(xs[i], i + 1);
    }
    var g, v := Entry(RT_GROUP_ICON, 1, 0x1030, group), Entry(RT_VERSION, 1, 0x0030, version);
    EntriesAppend(es, g);
    EntriesAppend(es + [g], v);
    out := out + EncodeEntry(g) + EncodeEntry(v);
  }

  lemma GroupStep(xs: seq<Image>, i: nat)
    requires i < |xs|
    ensures Group(xs, i + 1) == Group(xs, i) + GroupRow(xs[i], i + 1)
  {
    var head := Le(0, 2) + Le(1, 2) + Le(|xs|, 2);
    hide Le, GroupRow;
    assert head + (GroupRows(xs, i) + GroupRow(xs[i], i + 1)) == (head + GroupRows(xs, i)) + GroupRow(xs[i], i + 1);
  }

  lemma {:induction false} IconsFit(xs: seq<Image>, n: nat)
    requires n <= |xs| < 0x10000 && forall i :: 0 <= i < |xs| ==> |xs[i].data| < TWO32
    ensures |IconEntries(xs, n)| == n
    ensures forall i :: 0 <= i < n ==>
              Fits(IconEntries(xs, n)[i]) && IconEntries(xs, n)[i] == Entry(RT_ICON, i + 1, 0x1010, xs[i].data)
  {
    if n > 0 {
      IconsFit(xs, n - 1);
    }
  }

  /**
   * The resource file walks back to its entries: an empty one, then icon i+1 for the i-th image, of kind 3,
   * then the group, of kind 14, and the version, of kind 16.
   */
  lemma ResWalks(xs: seq<Image>, version: seq<byte>)
    requires |xs| <= 0xffff && |version| <= 0xffff_ffff && forall i :: 0 <= i < |xs| ==> |xs[i].data| <= 0xffff_ffff
    ensures var es := AllEntries(xs, version);
            && Walk(EncodeEntries(es)) == Some(es) && |es| == |xs| + 3 && es[0] == Entry(0, 0, 0, [])
            && (forall i :: 0 <= i < |xs| ==> es[i + 1] == Entry(3, i + 1, 0x1010, xs[i].data))
            && es[|xs| + 1] == Entry(14, 1, 0x1030, Group(xs, |xs|)) && es[|xs| + 2] == Entry(16, 1, 0x0030, version)
  {
    hide Walk, EncodeEntries, GroupRows, Le, IconEntries;
    IconsFit(xs, |xs|);
    var es := AllEntries(xs, version);
    assert forall i :: 0 <= i < |xs| ==> es[i + 1] == IconEntries(xs, |xs|)[i];
    forall i | 0 <= i < |es|
      ensures && es[i].kind <= 0xffff && es[i].name <= 0xffff && es[i].flags <= 0xffff
              && |es[i].data| <= 0xffff_ffff
    {
      if 0 < i <= |xs| {
        assert es[i] == IconEntries(xs, |xs|)[i - 1];
      }
    }
    WalkRecovers(es);
  }

  lemma {:induction false} RowLies(xs: seq<Image>, n: nat, i: nat)
    requires i < n <= |xs|
    ensures GroupRows(xs, n)[14 * i..14 * i + 14] == GroupRow(xs[i], i + 1)
    decreases n
  {
    hide GroupRow;
    var before := GroupRows(xs, n - 1);
    if i < n - 1 {
      RowLies(xs, n - 1, i);
      assert GroupRows(xs, n)[14 * i..14 * i + 14] == before[14 * i..14 * i + 14];
    }
  }

  lemma GroupRowFields(x: Image, id: nat)
    requires |x.data| < TWO32 && id < 0x10000
    ensures Field(GroupRow(x, id), 8, 4) == |x.data| && Field(GroupRow(x, id), 12, 2) == id
  {
    Powers();
    LeRoundTrip(|x.data|, 4);
    LeRoundTrip(id, 2);
    hide Le, FromLe, Pow256;
    var r := GroupRow(x, id);
    assert r[8..12] == Le(|x.data|, 4) && r[12..14] == Le(id, 2);
  }

  /** A group starts 0, 1 and its number of rows; a row is the pixels twice, one plane, 32 bits, length, number. */
  lemma GroupBytes(xs: seq<Image>, x: Image, id: nat)
    ensures Group(xs, 0) == [0, 0] + [1, 0] + Le(|xs|, 2)
    ensures GroupRow(x, id) ==
            ([x.z % 256, x.z % 256, 0, 0] + ([1, 0] + [32, 0])) + (Le(|x.data|, 4) + Le(id, 2))
  {
    TwoBytes(0);
    TwoBytes(1);
    TwoBytes(32);
    hide Le;
  }

  lemma FieldInside(s: seq<byte>, at: nat, part: seq<byte>, o: nat, w: nat)
    requires at + |part| <= |s| && s[at..at + |part|] == part && o + w <= |part|
    ensures Field(s, at + o, w) == Field(part, o, w)
  {
    hide FromLe;
    PartOf(s, at, part, o, o + w);
  }

  /** The group's i-th row gives the length of the i-th image and the number of the icon entry that holds it. */
  lemma GroupNamesIcons(xs: seq<Image>, i: nat)
    requires i < |xs| < 0x10000 && |xs[i].data| < TWO32
    ensures |Group(xs, |xs|)| == 6 + 14 * |xs|
    ensures Field(Group(xs, |xs|), 6 + 14 * i + 8, 4) == |xs[i].data|
            && Field(Group(xs, |xs|), 6 + 14 * i + 12, 2) == i + 1
  {
    hide Le, Field, GroupRow, GroupRows;
    RowLies(xs, |xs|, i);
    GroupRowFields(xs[i], i + 1);
    var g, rows := Group(xs, |xs|), GroupRows(xs, |xs|);
    assert g[6..] == rows;
    assert g[6 + 14 * i..6 + 14 * i + 14] == rows[14 * i..14 * i + 14];
    FieldInside(g, 6 + 14 * i, GroupRow(xs[i], i + 1), 8, 4);
    FieldInside(g, 6 + 14 * i, GroupRow(xs[i], i + 1), 12, 2);
  }

  // ---------------------------------------------------------------- the icon file

  function IcoRow(x: Image, at: nat): (s: seq<byte>)
    ensures |s| == 16
  {
    ([x.z % 256, x.z % 256, 0, 0] + (Le(1, 2) + Le(32, 2))) + (Le(|x.data|, 4) + Le(at, 4))
  }

  /** The bytes of the first `n` images, one after another. */
  function Datas(xs: seq<Image>, n: nat): seq<byte>
    requires n <= |xs|
  {
    if n == 0 then [] else Datas(xs, n - 1) + xs[n - 1].data
  }

  /** Where the i-th image's bytes start. */
  function IcoOffset(xs: seq<Image>, i: nat): nat
    requires i <= |xs|
  {
    6 + 16 * |xs| + |Datas(xs, i)|
  }

  function IcoRows(xs: seq<Image>, n: nat): (s: seq<byte>)
    requires n <= |xs|
    ensures |s| == 16 * n
  {
    if n == 0 then [] else IcoRows(xs, n - 1) + IcoRow(xs[n - 1], IcoOffset(xs, n - 1))
  }

  function IcoHead(xs: seq<Image>): (s: seq<byte>)
    ensures |s| == 6
  {
    Le(0, 2) + Le(1, 2) + Le(|xs|, 2)
  }

  method Ico(xs: seq<Image>) returns (out: seq<byte>)
    ensures out == IcoHead(xs) + IcoRows(xs, |xs|) + Datas(xs, |xs|)
  {
    hide Le, IcoRow, IcoHead;
    out := IcoHead(xs);
    var at := 6 + 16 * |xs|;
    assert out + [] == out;
    for i := 0 to |xs|
      invariant at == IcoOffset(xs, i) && out == IcoHead(xs) + IcoRows(xs, i)
    {
      assert out + IcoRow(xs[i], at) == IcoHead(xs) + (IcoRows(xs, i) + IcoRow(xs[i], at));
      out := out + IcoRow(xs[i], at);
      at := at + |xs[i].data|;
    }
    var datas := [];
    for i := 0 to |xs|
      invariant datas == Datas(xs, i)
    {
      datas := datas + xs[i].data;
    }
    out := out + datas;
  }

  lemma {:induction false} IcoRowLies(xs: seq<Image>, n: nat, i: nat)
    requires i < n <= |xs|
    ensures IcoRows(xs, n)[16 * i..16 * i + 16] == IcoRow(xs[i], IcoOffset(xs, i))
    decreases n
  {
    hide IcoRow, IcoOffset;
    var before := IcoRows(xs, n - 1);
    if i < n - 1 {
      IcoRowLies(xs, n - 1, i);
      assert IcoRows(xs, n)[16 * i..16 * i + 16] == before[16 * i..16 * i + 16];
    }
  }

  lemma {:induction false} DataLies(xs: seq<Image>, n: nat, i: nat)
    requires i < n <= |xs|
    ensures |Datas(xs, i)| + |xs[i].data| <= |Datas(xs, n)|
    ensures Datas(xs, n)[|Datas(xs, i)|..|Datas(xs, i)| + |xs[i].data|] == xs[i].data
    decreases n
  {
    if i < n - 1 {
      DataLies(xs, n - 1, i);
      var before, o := Datas(xs, n - 1), |Datas(xs, i)|;
      assert Datas(xs, n)[o..o + |xs[i].data|] == before[o..o + |xs[i].data|];
    }
  }

  lemma IcoRowFields(x: Image, at: nat)
    requires |x.data| < TWO32 && at < TWO32
    ensures Field(IcoRow(x, at), 8, 4) == |x.data| && Field(IcoRow(x, at), 12, 4) == at
  {
    hide Le, FromLe, Pow256;
    Powers();
    LeRoundTrip(|x.data|, 4);
    LeRoundTrip(at, 4);
    var head := [x.z % 256, x.z % 256, 0, 0] + (Le(1, 2) + Le(32, 2));
    assert IcoRow(x, at) == head + Le(|x.data|, 4) + Le(at, 4);
    Middle(head, Le(|x.data|, 4), Le(at, 4), 0, 4);
    Last(head, Le(|x.data|, 4), Le(at, 4), 0, 4);
    assert IcoRow(x, at)[8..12] == Le(|x.data|, 4) && IcoRow(x, at)[12..16] == Le(at, 4);
  }

  /** The same for the file, whose rows end with where the image's bytes are. */
  lemma IcoBytes(xs: seq<Image>, x: Image, at: nat)
    ensures IcoHead(xs) == [0, 0] + [1, 0] + Le(|xs|, 2)
    ensures IcoRow(x, at) ==
            ([x.z % 256, x.z % 256, 0, 0] + ([1, 0] + [32, 0])) + (Le(|x.data|, 4) + Le(at, 4))
  {
    TwoBytes(0);
    TwoBytes(1);
    TwoBytes(32);
    hide Le;
  }

  /** Each row's offset and length lead to exactly that image's bytes. */
  lemma IcoFindsImages(xs: seq<Image>, i: nat)
    requires i < |xs| && IcoOffset(xs, |xs|) < TWO32
    ensures var s := IcoHead(xs) + IcoRows(xs, |xs|) + Datas(xs, |xs|);
            && 6 + 16 * |xs| <= |s| == IcoOffset(xs, |xs|)
            && var n, at := Field(s, 6 + 16 * i + 8, 4), Field(s, 6 + 16 * i + 12, 4);
            at + n <= |s| && s[at..at + n] == xs[i].data
  {
    hide Le, Field, IcoRow, IcoRows, IcoHead, Datas;
    DataLies(xs, |xs|, i);
    var at, d := IcoOffset(xs, i), |Datas(xs, i)|;
    IcoRowLies(xs, |xs|, i);
    IcoRowFields(xs[i], at);
    var s, rows := IcoHead(xs) + IcoRows(xs, |xs|) + Datas(xs, |xs|), IcoRows(xs, |xs|);
    Middle(IcoHead(xs), rows, Datas(xs, |xs|), 16 * i, 16 * i + 16);
    FieldInside(s, 6 + 16 * i, IcoRow(xs[i], at), 8, 4);
    FieldInside(s, 6 + 16 * i, IcoRow(xs[i], at), 12, 4);
    Last(IcoHead(xs), rows, Datas(xs, |xs|), d, d + |xs[i].data|);
  }
}
