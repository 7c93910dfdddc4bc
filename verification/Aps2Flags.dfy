/** What each bit of a relocation group's flags does to the bytes of the group and to the relocations they give. */
module Aps2Flags {
  import opened Wrappers
  import opened Bytes
  import opened SlebReader
  import opened Aps2

  /** The four flag bits of a group, and the bits above them, which mean nothing. */
  datatype Bits = Bits(info: bool, offset: bool, addend: bool, has: bool, above: int)

  function FlagsOf(b: Bits): int
  {
    (if b.info then 1 else 0) + (if b.offset then 2 else 0) + (if b.addend then 4 else 0) + (if b.has then 8 else 0) +
    16 * b.above
  }

  lemma BitsTested(b: Bits)
    ensures GroupedByInfo(FlagsOf(b)) == b.info && GroupedByOffsetDelta(FlagsOf(b)) == b.offset
    ensures GroupedByAddend(FlagsOf(b)) == b.addend && HasAddend(FlagsOf(b)) == b.has
    ensures AddendPerReloc(FlagsOf(b)) == (b.has && !b.addend) && AddendPerGroup(FlagsOf(b)) == (b.has && b.addend)
  {
    var i, o, g := if b.info then 1 else 0, if b.offset then 2 else 0, if b.addend then 4 else 0;
    BitOf(b.above, b.has, i + o + g, 8);
    BitOf(2 * b.above + if b.has then 1 else 0, b.addend, i + o, 4);
    BitOf(4 * b.above + (if b.has then 2 else 0) + if b.addend then 1 else 0, b.offset, i, 2);
    BitOf(8 * b.above + (if b.has then 4 else 0) + (if b.addend then 2 else 0) + if b.offset then 1 else 0,
          b.info, 0, 1);
  }

  lemma BitOf(above: int, one: bool, below: nat, bit: nat)
    requires below < bit
    ensures var flags := 2 * bit * above + (if one then bit else 0) + below;
            flags / bit % 2 == if one then 1 else 0
  {
    var q := 2 * above + if one then 1 else 0;
    assert 2 * bit * above + (if one then bit else 0) + below == q * bit + below;
    Split(q, bit, below);
  }

  /** How far a relocation is from the one before it, its info, and how much its addend differs. */
  datatype Step = Step(delta: int, info: int, addend: int)

  predicate Fits(s: Step)
  {
    -TWO63 <= s.delta < TWO63 && -TWO63 <= s.info < TWO63 && -TWO63 <= s.addend < TWO63
  }

  function Sleb(written: bool, v: int): seq<byte>
  {
    if written then EncodeSleb(v) else []
  }

  /** A relocation's own fields: those the flags do not say the group shares. */
  function StepBytes(b: Bits, s: Step): seq<byte>
  {
    Sleb(!b.offset, s.delta) + (Sleb(!b.info, s.info) + Sleb(b.has && !b.addend, s.addend))
  }

  function StepsBytes(b: Bits, steps: seq<Step>): seq<byte>
  {
    if steps == [] then [] else StepBytes(b, steps[0]) + StepsBytes(b, steps[1..])
  }

  /** A group's flags, the fields it shares, and what follows. */
  function HeaderBytes(b: Bits, shared: Step, own: seq<byte>): seq<byte>
  {
    EncodeSleb(FlagsOf(b)) + (Sleb(b.offset, shared.delta) + (Sleb(b.info, shared.info) +
                                                              (Sleb(b.has && b.addend, shared.addend) + own)))
  }

  /** A group: its size, its flags, the fields it shares, and each relocation's own. */
  function GroupBytes(b: Bits, shared: Step, steps: seq<Step>): seq<byte>
  {
    EncodeSleb(|steps|) + HeaderBytes(b, shared, StepsBytes(b, steps))
  }

  function Deltas(steps: seq<Step>): int
  {
    if steps == [] then 0 else steps[0].delta + Deltas(steps[1..])
  }

  function Addends(steps: seq<Step>): int
  {
    if steps == [] then 0 else steps[0].addend + Addends(steps[1..])
  }

  /**
   * `xs` are the relocations of a group after `last`: each offset is the sum of the deltas so far, each
   * info its own or the shared one, each addend 0, or what the group adds, or the sum of the steps so far.
   */
  ghost predicate Follow(b: Bits, last: Reloc, shared: Step, steps: seq<Step>, xs: seq<Reloc>)
  {
    |xs| == |steps| &&
    forall j :: 0 <= j < |steps| ==>
                  && xs[j].offset == (last.offset + Deltas(steps[..j + 1])) % 0x1_0000_0000_0000_0000
                  && xs[j].info == steps[j].info % 0x1_0000_0000_0000_0000
                  && xs[j].addend == if !b.has then 0
                                     else if b.addend then last.addend + shared.addend
                                     else last.addend + Addends(steps[..j + 1])
  }

  /** A shared field is every relocation's. */
  ghost predicate Shares(b: Bits, shared: Step, steps: seq<Step>)
  {
    forall s :: s in steps ==> (b.offset ==> s.delta == shared.delta) && (b.info ==> s.info == shared.info)
  }

  lemma PopWritten(written: bool, v: int, default: int, rest: seq<byte>)
    requires -TWO63 <= v < TWO63
    ensures PopIf(written, Sleb(written, v) + rest, default) == Ok((if written then v else default, rest))
  {
    if written {
      PopEncoded(v, rest);
    } else {
      assert Sleb(written, v) + rest == rest;
    }
  }

  lemma StepRead(b: Bits, s: Step, h: Header, rest: seq<byte>)
    requires h.flags == FlagsOf(b) && Fits(s)
    requires (b.offset ==> s.delta == h.offsetDelta) && (b.info ==> s.info % TWO64 == h.last.info)
    ensures ReadReloc(StepBytes(b, s) + rest, h) ==
            Ok((Reloc((h.last.offset + s.delta) % TWO64, s.info % TWO64,
                      h.last.addend + if b.has && !b.addend then s.addend else 0), rest))
  {
    BitsTested(b);
    hide PopIf, PopSpec, Sleb, FlagsOf, GroupedByInfo, GroupedByOffsetDelta, AddendPerReloc;
    var e1, e2, e3 := Sleb(!b.offset, s.delta), Sleb(!b.info, s.info), Sleb(b.has && !b.addend, s.addend);
    assert StepBytes(b, s) + rest == e1 + (e2 + (e3 + rest));
    PopWritten(!b.offset, s.delta, h.offsetDelta, e2 + (e3 + rest));
    PopWritten(!b.info, s.info, h.last.info, e3 + rest);
    PopWritten(b.has && !b.addend, s.addend, 0, rest);
  }

  lemma {:induction false} StepsRead(b: Bits, shared: Step, steps: seq<Step>, h: Header, rest: seq<byte>)
    requires h.flags == FlagsOf(b) && Shares(b, shared, steps) && forall s :: s in steps ==> Fits(s)
    requires (b.offset ==> shared.delta == h.offsetDelta) && (b.info ==> shared.info % TWO64 == h.last.info)
    requires !b.has ==> h.last.addend == 0
    ensures var got := ReadRelocs(StepsBytes(b, steps) + rest, |steps|, h);
            got.Ok? && got.value.1 == rest &&
            Follow(b, h.last, Step(0, 0, 0), steps, got.value.0)
    decreases |steps|
  {
    if steps == [] {
      assert StepsBytes(b, steps) + rest == rest;
    } else {
      var s, more := steps[0], StepsBytes(b, steps[1..]) + rest;
      assert s in steps;
      assert StepsBytes(b, steps) + rest == StepBytes(b, s) + more;
      StepRead(b, s, h, more);
      var x := ReadReloc(StepBytes(b, s) + more, h).value.0;
      StepsRead(b, shared, steps[1..], h.(last := x), rest);
      hide ReadReloc, StepBytes, Fits;
      FollowsFirst(b, h.last, steps, x, ReadRelocs(more, |steps| - 1, h.(last := x)).value.0);
    }
  }

  lemma FollowsFirst(b: Bits, last: Reloc, steps: seq<Step>, x: Reloc, xs: seq<Reloc>)
    requires steps != [] && Follow(b, x, Step(0, 0, 0), steps[1..], xs)
    requires x == Reloc((last.offset + steps[0].delta) % TWO64, steps[0].info % TWO64,
                        last.addend + if b.has && !b.addend then steps[0].addend else 0)
    requires !b.has ==> last.addend == 0
    ensures Follow(b, last, Step(0, 0, 0), steps, [x] + xs)
  {
    forall j | 0 <= j < |steps|
      ensures ([x] + xs)[j].offset == (last.offset + Deltas(steps[..j + 1])) % TWO64
      ensures ([x] + xs)[j].info == steps[j].info % TWO64
      ensures ([x] + xs)[j].addend == if !b.has then 0
                                      else if b.addend then last.addend
                                      else last.addend + Addends(steps[..j + 1])
    {
      assert steps[..j + 1][0] == steps[0] && steps[..j + 1][1..] == steps[1..][..j];
      if j > 0 {
        assert ([x] + xs)[j] == xs[j - 1] && steps[1..][j - 1] == steps[j];
        assert (x.offset + Deltas(steps[1..][..j])) % TWO64 == (last.offset + Deltas(steps[..j + 1])) % TWO64 by {
          SumFolds(last.offset + steps[0].delta, Deltas(steps[1..][..j]));
        }
      }
    }
  }

  lemma SumFolds(a: int, b: int)
    ensures (a % TWO64 + b) % TWO64 == (a + b) % TWO64
  {
  }

  lemma GroupRead(b: Bits, shared: Step, steps: seq<Step>, last: Reloc, rest: seq<byte>)
    requires steps != [] && |steps| < TWO63 && -TWO63 <= FlagsOf(b) < TWO63 && Fits(shared)
    requires Shares(b, shared, steps) && forall s :: s in steps ==> Fits(s)
    ensures var got := ReadGroup(GroupBytes(b, shared, steps) + rest, last);
            got.Ok? && got.value.1 == rest && Follow(b, last, shared, steps, got.value.0)
  {
    hide FlagsOf, Fits, Sleb, StepsBytes, GroupBytes, ReadHeader, ReadRelocs, ReadGroup, EncodeSleb, Follow, Shares;
    var own := StepsBytes(b, steps) + rest;
    GroupParts(b, shared, steps, rest);
    HeaderRead(b, shared, last, own);
    var addend := if !b.has then 0 else last.addend + if b.addend then shared.addend else 0;
    var h := Header(FlagsOf(b), if b.offset then shared.delta else 0,
                    Reloc(last.offset, if b.info then shared.info % TWO64 else last.info, addend));
    StepsRead(b, shared, steps, h, rest);
    SizeRead(|steps|, HeaderBytes(b, shared, own), last);
    FollowsShared(b, last, shared, steps, ReadRelocs(own, |steps|, h).value.0);
  }

  lemma GroupParts(b: Bits, shared: Step, steps: seq<Step>, rest: seq<byte>)
    ensures GroupBytes(b, shared, steps) + rest ==
            EncodeSleb(|steps|) + HeaderBytes(b, shared, StepsBytes(b, steps) + rest)
  {
    hide FlagsOf, Sleb, StepsBytes, EncodeSleb;
  }

  lemma SizeRead(n: nat, s: seq<byte>, last: Reloc)
    requires 0 < n < TWO63
    ensures var h := ReadHeader(s, last);
            ReadGroup(EncodeSleb(n) + s, last) == if h.Err? then Err(h.error) else ReadRelocs(h.value.1, n, h.value.0)
  {
    hide ReadHeader, ReadRelocs, EncodeSleb, PopSpec;
    PopEncoded(n, s);
  }

  lemma FollowsShared(b: Bits, last: Reloc, shared: Step, steps: seq<Step>, xs: seq<Reloc>)
    requires var addend := if !b.has then 0 else last.addend + if b.addend then shared.addend else 0;
             var info := if b.info then shared.info % TWO64 else last.info;
             Follow(b, Reloc(last.offset, info, addend), Step(0, 0, 0), steps, xs)
    ensures Follow(b, last, shared, steps, xs)
  {
  }

  lemma HeaderRead(b: Bits, shared: Step, last: Reloc, own: seq<byte>)
    requires -TWO63 <= FlagsOf(b) < TWO63 && Fits(shared)
    ensures ReadHeader(HeaderBytes(b, shared, own), last) ==
            Ok((Header(FlagsOf(b), if b.offset then shared.delta else 0,
                       Reloc(last.offset, if b.info then shared.info % TWO64 else last.info,
                             if !b.has then 0 else last.addend + if b.addend then shared.addend else 0)), own))
  {
    BitsTested(b);
    hide PopIf, PopSpec, Sleb, FlagsOf, EncodeSleb, GroupedByInfo, GroupedByOffsetDelta, AddendPerGroup, HasAddend;
    var e1, e2, e3 := Sleb(b.offset, shared.delta), Sleb(b.info, shared.info), Sleb(b.has && b.addend, shared.addend);
    PopEncoded(FlagsOf(b), e1 + (e2 + (e3 + own)));
    PopWritten(b.offset, shared.delta, 0, e2 + (e3 + own));
    PopWritten(b.info, shared.info, last.info, e3 + own);
    PopWritten(b.has && b.addend, shared.addend, 0, own);
  }

  /**
   * Bit 0 of the flags says the info is written once for the group, bit 1 that the offset delta is, bit 3
   * that there are addends, and bit 2, where there are, that the group has one and not each relocation;
   * the bits above say nothing. Without bit 3 every addend is 0.
   */
  lemma FlagsMean(b: Bits, start: int, shared: Step, steps: seq<Step>)
    requires steps != [] && |steps| < TWO63 && -TWO63 <= FlagsOf(b) < TWO63 && -TWO63 <= start < TWO63
    requires Fits(shared) && Shares(b, shared, steps) && forall s :: s in steps ==> Fits(s)
    ensures var got := Decode([0x41, 0x50, 0x53, 0x32] + (EncodeSleb(|steps|) + (EncodeSleb(start) +
                                                          GroupBytes(b, shared, steps))));
            got.Ok? && Follow(b, Reloc(start, 0, 0), shared, steps, got.value)
  {
    hide Fits, FlagsOf, GroupBytes, Follow, EncodeSleb, ReadGroup, PopSpec, Shares;
    var group, last := GroupBytes(b, shared, steps), Reloc(start, 0, 0);
    var blob := [0x41, 0x50, 0x53, 0x32] + (EncodeSleb(|steps|) + (EncodeSleb(start) + group));
    assert blob[4..] == EncodeSleb(|steps|) + (EncodeSleb(start) + group) && blob[..4] == [0x41, 0x50, 0x53, 0x32];
    PopEncoded(|steps|, EncodeSleb(start) + group);
    PopEncoded(start, group);
    GroupRead(b, shared, steps, last, []);
    assert group + [] == group;
    OneGroup(b, shared, steps, last, group);
  }

  lemma OneGroup(b: Bits, shared: Step, steps: seq<Step>, last: Reloc, group: seq<byte>)
    requires var got := ReadGroup(group, last);
             got.Ok? && got.value.1 == [] && Follow(b, last, shared, steps, got.value.0)
    requires steps != []
    ensures ReadGroups(group, |steps|, last) == Ok((ReadGroup(group, last).value.0, []))
  {
    var xs := ReadGroup(group, last).value.0;
    assert |xs| == |steps|;
    assert ReadGroups([], 0, xs[|xs| - 1]) == Ok(([], []));
    assert xs + [] == xs;
  }
}
