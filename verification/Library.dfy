/**
 * What one scanned library means: its functions, the events each instruction gives rise to, and the
 * edges of the closure. Nothing here depends on the order in which functions are scanned.
 */
module Library {
  import opened Wrappers
  import opened A64

  datatype Bound = Bound(start: int, length: nat)

  /** The tables read out of the file: readable words, FDE bounds, PLT stubs, GOT slots of imports. */
  datatype Library = Library(words: map<int, Word>, bounds: seq<Bound>, stubs: map<int, string>, got: map<int, string>)

  datatype Mode = Mode(followAddressTaken: bool, blOnly: bool)

  const SYNTH_LIMIT_WORDS := 16_384
  const ADRP_USE_WINDOW := 8

  ghost predicate Sorted(bounds: seq<Bound>)
  {
    forall i, j :: 0 <= i < j < |bounds| ==> bounds[i].start <= bounds[j].start
  }

  // ---------------------------------------------------------------- functions

  /** How many starts are at most `v`: the insertion point of the standard library's bisect_right. */
  function BisectRight(bounds: seq<Bound>, v: int): (i: nat)
    requires Sorted(bounds)
    ensures i <= |bounds|
    ensures forall k :: 0 <= k < i ==> bounds[k].start <= v
    ensures forall k :: i <= k < |bounds| ==> bounds[k].start > v
  {
    if bounds == [] then 0
    else if bounds[|bounds| - 1].start <= v then |bounds|
    else
      assert forall k :: 0 <= k < |bounds| - 1 ==> bounds[..|bounds| - 1][k] == bounds[k];
      BisectRight(bounds[..|bounds| - 1], v)
  }

  /** How many starts are below `v`: bisect_left. */
  function BisectLeft(bounds: seq<Bound>, v: int): (i: nat)
    requires Sorted(bounds)
    ensures i <= |bounds|
    ensures forall k :: 0 <= k < i ==> bounds[k].start < v
    ensures forall k :: i <= k < |bounds| ==> bounds[k].start >= v
  {
    if bounds == [] then 0
    else if bounds[|bounds| - 1].start < v then |bounds|
    else
      assert forall k :: 0 <= k < |bounds| - 1 ==> bounds[..|bounds| - 1][k] == bounds[k];
      BisectLeft(bounds[..|bounds| - 1], v)
  }

  function Containing(lib: Library, v: int): (f: Option<int>)
    requires Sorted(lib.bounds)
  {
    var i := BisectRight(lib.bounds, v);
    if i > 0 && v < lib.bounds[i - 1].start + lib.bounds[i - 1].length then Some(lib.bounds[i - 1].start) else None
  }

  ghost predicate Disjoint(bounds: seq<Bound>)
  {
    forall i, j :: 0 <= i < j < |bounds| ==> bounds[i].start + bounds[i].length <= bounds[j].start
  }

  ghost predicate Covers(b: Bound, v: int)
  {
    b.start <= v < b.start + b.length
  }

  /** With disjoint bounds, `Containing` names exactly the function an address lies in. */
  lemma ContainingExact(lib: Library, v: int, f: int)
    requires Sorted(lib.bounds) && Disjoint(lib.bounds)
    ensures Containing(lib, v) == Some(f) <==>
            exists k :: 0 <= k < |lib.bounds| && lib.bounds[k].start == f && Covers(lib.bounds[k], v)
  {
    var i := BisectRight(lib.bounds, v);
    forall k | 0 <= k && k + 1 < i
      ensures !Covers(lib.bounds[k], v)
    {
      assert lib.bounds[k].start + lib.bounds[k].length <= lib.bounds[i - 1].start;
    }
    if Containing(lib, v) == Some(f) {
      assert Covers(lib.bounds[i - 1], v);
    }
  }

  /** A function found from any of its addresses is found from its start. */
  lemma ContainingIdempotent(lib: Library, v: int)
    requires Sorted(lib.bounds) && Containing(lib, v).Some?
    ensures Containing(lib, Containing(lib, v).value) == Containing(lib, v)
  {
    var i, s := BisectRight(lib.bounds, v), Containing(lib, v).value;
    var j := BisectRight(lib.bounds, s);
    assert lib.bounds[i - 1].start == s <= v;
    if i < |lib.bounds| {
      assert lib.bounds[i].start > s;
    }
    assert j == i;
  }

  function SynthesizeFrom(words: map<int, Word>, pc: int, budget: nat): (r: Option<int>)
    ensures r.Some? ==> pc in words && r.value > pc
    decreases budget
  {
    if budget == 0 || pc !in words then None
    else if words[pc] == RET then Some(pc + 4)
    else SynthesizeFrom(words, pc + 4, budget - 1)
  }

  /** The extent guessed for a call target no FDE covers: up to its first RET. */
  function Synthesized(lib: Library, target: int): (r: Option<int>)
    ensures r.Some? ==> target in lib.words && r.value > 0
  {
    var end := SynthesizeFrom(lib.words, target, SYNTH_LIMIT_WORDS);
    if end.Some? then Some(end.value - target) else None
  }

  /** The `k`th word from `pc` is a RET, and every word before it is readable and is none. */
  ghost predicate FirstRet(words: map<int, Word>, pc: int, k: nat)
  {
    && NthWord(pc, k) in words && words[NthWord(pc, k)] == 0xD65F_03C0
    && forall j :: 0 <= j < k ==> NthWord(pc, j) in words && words[NthWord(pc, j)] != 0xD65F_03C0
  }

  function NthWord(pc: int, k: nat): int
  {
    pc + 4 * k
  }

  lemma {:induction false} SynthesizeFromFirst(words: map<int, Word>, pc: int, budget: nat, k: nat)
    ensures SynthesizeFrom(words, pc, budget) == Some(pc + 4 * k + 4) <==> k < budget && FirstRet(words, pc, k)
    decreases budget
  {
    assert NthWord(pc, 0) == pc;
    if budget > 0 && pc in words && words[pc] != RET && k > 0 {
      SynthesizeFromFirst(words, pc + 4, budget - 1, k - 1);
      FirstRetNext(words, pc, k);
    } else if budget > 0 && pc in words && words[pc] != RET {
      SynthesizeFromAfter(words, pc + 4, budget - 1);
    }
  }

  lemma FirstRetNext(words: map<int, Word>, pc: int, k: nat)
    requires k > 0 && pc in words && words[pc] != RET
    ensures FirstRet(words, pc, k) <==> FirstRet(words, pc + 4, k - 1)
  {
    assert NthWord(pc + 4, k - 1) == NthWord(pc, k);
    if FirstRet(words, pc, k) {
      forall j {:trigger NthWord(pc + 4, j)} | 0 <= j < k - 1
        ensures NthWord(pc + 4, j) in words && words[NthWord(pc + 4, j)] != RET
      {
        assert NthWord(pc + 4, j) == NthWord(pc, j + 1);
      }
    }
    if FirstRet(words, pc + 4, k - 1) {
      forall j {:trigger NthWord(pc, j)} | 0 <= j < k
        ensures NthWord(pc, j) in words && words[NthWord(pc, j)] != RET
      {
        assert j > 0 ==> NthWord(pc, j) == NthWord(pc + 4, j - 1);
      }
    }
  }

  /** A guess ends at a word it has read. */
  lemma {:induction false} SynthesizeFromAfter(words: map<int, Word>, pc: int, budget: nat)
    ensures var r := SynthesizeFrom(words, pc, budget);
            r.Some? ==> exists k: nat :: k < budget && r.value == pc + 4 * k + 4
    decreases budget
  {
    if budget > 0 && pc in words {
      if words[pc] == RET {
        assert pc + 4 == pc + 4 * 0 + 4;
      } else {
        SynthesizeFromAfter(words, pc + 4, budget - 1);
        var r := SynthesizeFrom(words, pc + 4, budget - 1);
        if r.Some? {
          var k: nat :| k < budget - 1 && r.value == pc + 4 + 4 * k + 4;
          assert r.value == pc + 4 * (k + 1) + 4;
        }
      }
    }
  }

  /** A guess is the length up to and with the first RET, which the limit reaches over readable words. */
  lemma SynthesizedExactly(lib: Library, target: int, length: int)
    ensures Synthesized(lib, target) == Some(length) <==>
            exists k: nat :: k < 16_384 && FirstRet(lib.words, target, k) && length == 4 * k + 4
  {
    SynthesizeFromAfter(lib.words, target, SYNTH_LIMIT_WORDS);
    var end := SynthesizeFrom(lib.words, target, SYNTH_LIMIT_WORDS);
    if end.Some? {
      var k: nat :| k < SYNTH_LIMIT_WORDS && end.value == target + 4 * k + 4;
      SynthesizeFromFirst(lib.words, target, SYNTH_LIMIT_WORDS, k);
    }
    forall k: nat | k < SYNTH_LIMIT_WORDS && FirstRet(lib.words, target, k)
      ensures end == Some(target + 4 * k + 4)
    {
      SynthesizeFromFirst(lib.words, target, SYNTH_LIMIT_WORDS, k);
    }
  }

  /** The function a direct target belongs to. */
  function Resolve(lib: Library, target: int): Option<int>
    requires Sorted(lib.bounds)
  {
    var f := Containing(lib, target);
    if f.Some? then f else if Synthesized(lib, target).Some? then Some(target) else None
  }

  function Starts(lib: Library): set<int>
  {
    set b | b in lib.bounds :: b.start
  }

  /** The length the tables give a start: that of its first FDE. */
  function TableLength(lib: Library, f: int): int
    requires Sorted(lib.bounds)
  {
    var i := BisectLeft(lib.bounds, f);
    if i < |lib.bounds| then lib.bounds[i].length else 0
  }

  /**
   * How much of `f` may be scanned: what it was synthesised with, where it has been called; otherwise
   * what the tables say.
   */
  ghost predicate MayScan(lib: Library, mode: Mode, f: int, length: int)
    requires Sorted(lib.bounds)
  {
    match Containing(lib, f)
    case Some(g) => g == f && length == TableLength(lib, f)
    case None =>
      || Synthesized(lib, f) == Some(length)
      || (mode.followAddressTaken && f in Starts(lib) && length == TableLength(lib, f))
  }

  /** The one extent of a function that has only one. */
  function Extent(lib: Library, f: int): int
    requires Sorted(lib.bounds)
  {
    if Containing(lib, f).None? && Synthesized(lib, f).Some? then Synthesized(lib, f).value else TableLength(lib, f)
  }

  /** A start in no function that a call would give another length than the tables do. */
  predicate TwoExtents(lib: Library, f: int)
    requires Sorted(lib.bounds)
  {
    f in Starts(lib) && Containing(lib, f).None? && Synthesized(lib, f).Some? &&
      Synthesized(lib, f).value != TableLength(lib, f)
  }

  ghost predicate Unambiguous(lib: Library)
    requires Sorted(lib.bounds)
  {
    forall f :: f in Starts(lib) ==> !TwoExtents(lib, f)
  }

  /** Exactly then does nothing that is scanned have two extents; without address-taken edges nothing ever has. */
  lemma UnambiguousExactly(lib: Library)
    requires Sorted(lib.bounds)
    ensures Unambiguous(lib) <==> forall f, m, n :: MayScan(lib, TIER_C, f, m) && MayScan(lib, TIER_C, f, n) ==> m == n
  {
    if !Unambiguous(lib) {
      var f :| f in Starts(lib) && TwoExtents(lib, f);
      assert MayScan(lib, TIER_C, f, Synthesized(lib, f).value) && MayScan(lib, TIER_C, f, TableLength(lib, f));
    }
  }

  lemma OneExtent(lib: Library, mode: Mode, f: int, length: int)
    requires Sorted(lib.bounds) && MayScan(lib, mode, f, length)
    requires mode.followAddressTaken ==> Unambiguous(lib)
    ensures length == Extent(lib, f)
  {
  }

  /** A function the tables name is at one of their starts. */
  lemma FoundIsStart(lib: Library, v: int)
    requires Sorted(lib.bounds) && Containing(lib, v).Some?
    ensures Containing(lib, v).value in Starts(lib)
  {
    var i := BisectRight(lib.bounds, v);
    assert lib.bounds[i - 1] in lib.bounds;
  }

  /** Every start lies in its own function. */
  ghost predicate StartsContained(lib: Library)
    requires Sorted(lib.bounds)
  {
    forall f :: f in Starts(lib) ==> Containing(lib, f) == Some(f)
  }

  lemma DistinctPositiveContained(lib: Library)
    requires forall i, j :: 0 <= i < j < |lib.bounds| ==> lib.bounds[i].start < lib.bounds[j].start
    requires forall i :: 0 <= i < |lib.bounds| ==> lib.bounds[i].length > 0
    ensures Sorted(lib.bounds) && StartsContained(lib) && Unambiguous(lib)
  {
    forall f | f in Starts(lib)
      ensures Containing(lib, f) == Some(f)
    {
      var k :| 0 <= k < |lib.bounds| && lib.bounds[k].start == f;
      var i := BisectRight(lib.bounds, f);
      assert k < i && lib.bounds[i - 1].start <= f;
      assert i == k + 1;
    }
  }

  // ---------------------------------------------------------------- instructions

  /** The words scanned from `pc` on: up to `end`, or to the first address that holds none. */
  function Body(words: map<int, Word>, pc: int, end: int): (body: seq<Word>)
    decreases end - pc
  {
    if pc < end && pc in words then [words[pc]] + Body(words, pc + 4, end) else []
  }

  datatype Event =
    | Scanned                   // one instruction word read
    | Import(name: string)      // a branch to a PLT stub
    | Target(target: int)       // a branch to anything else outside the function
    | Taken(start: int)         // an FDE start whose address is materialised
    | Slot(name: string)        // a load through an import's GOT slot
    | IndirectCall
    | IndirectJump

  /** The page of the latest ADRP to `r` among the `ADRP_USE_WINDOW` - 1 instructions before `i`. */
  function LookBack(body: seq<Word>, start: int, i: nat, r: int, j: nat): Option<int>
    requires j <= i <= |body|
    decreases j
  {
    if j == 0 || i - (j - 1) >= ADRP_USE_WINDOW then None
    else if IsAdrp(body[j - 1]) && Rd(body[j - 1]) == r then Some(AdrpPage(body[j - 1], start + 4 * (j - 1)))
    else LookBack(body, start, i, r, j - 1)
  }

  /** Instruction `j` is the ADRP that `i` pairs with on register `r`: the latest of the seven before it. */
  ghost predicate Pairs(body: seq<Word>, i: nat, r: int, j: nat)
    requires i <= |body|
  {
    && j < i < j + 8 && IsAdrp(body[j]) && Rd(body[j]) == r
    && forall k :: j < k < i ==> !(IsAdrp(body[k]) && Rd(body[k]) == r)
  }

  lemma {:induction false} LookBackPairs(body: seq<Word>, start: int, i: nat, r: int, from: nat, p: int)
    requires from <= i <= |body|
    requires forall k :: from <= k < i ==> !(IsAdrp(body[k]) && Rd(body[k]) == r)
    ensures LookBack(body, start, i, r, from) == Some(p) <==>
            exists j: nat :: j < i && Pairs(body, i, r, j) && AdrpPage(body[j], start + 4 * j) == p
    decreases from
  {
    if from > 0 && i - (from - 1) < ADRP_USE_WINDOW {
      if IsAdrp(body[from - 1]) && Rd(body[from - 1]) == r {
        assert Pairs(body, i, r, from - 1);
        forall j: nat | j < i && Pairs(body, i, r, j)
          ensures j == from - 1
        {
        }
      } else {
        LookBackPairs(body, start, i, r, from - 1, p);
      }
    }
  }

  function Unless(inside: bool, e: Event): seq<Event>
  {
    if inside then [] else [e]
  }

  function BranchEvents(lib: Library, mode: Mode, start: int, end: int, pc: int, w: Word): seq<Event>
  {
    if IsBl(w) then
      var t := BlTarget(w, pc);
      if t in lib.stubs then [Import(lib.stubs[t])] else [Target(t)]
    else if IsB(w) && !mode.blOnly then
      var t := BlTarget(w, pc);
      if t in lib.stubs then [Import(lib.stubs[t])] else Unless(start <= t < end, Target(t))
    else if IsBCond(w) && !mode.blOnly then
      Unless(start <= B19Target(w, pc) < end, Target(B19Target(w, pc)))
    else if IsCbz(w) && !mode.blOnly then
      Unless(start <= B19Target(w, pc) < end, Target(B19Target(w, pc)))
    else if IsTbz(w) && !mode.blOnly then
      Unless(start <= B14Target(w, pc) < end, Target(B14Target(w, pc)))
    else if IsBlr(w) then [IndirectCall]
    else if IsBr(w) then [IndirectJump]
    else []
  }

  function TakenEvents(lib: Library, mode: Mode, t: int): seq<Event>
  {
    Unless(!(mode.followAddressTaken && t in Starts(lib)), Taken(t))
  }

  /** `live` is the page the base register is known to hold, if any. */
  function AddressEvents(lib: Library, mode: Mode, pc: int, w: Word, live: Option<int>): seq<Event>
  {
    if IsAdrp(w) then []
    else if IsAdr(w) then TakenEvents(lib, mode, AdrTarget(w, pc))
    else if live.None? then []
    else if IsLdr(w) then
      var slot := live.value + Imm12(w) * 8;
      if slot in lib.got then [Slot(lib.got[slot])] else []
    else if IsAdd(w) then TakenEvents(lib, mode, live.value + Imm12(w))
    else []
  }

  function InsnEvents(lib: Library, mode: Mode, start: int, end: int, body: seq<Word>, i: nat): seq<Event>
    requires i < |body|
  {
    var pc := start + 4 * i;
    [Scanned] + BranchEvents(lib, mode, start, end, pc, body[i]) +
    AddressEvents(lib, mode, pc, body[i], LookBack(body, start, i, Rn(body[i]), i))
  }

  /** A register named by no ADRP in the window holds no known page; one that is, the latest's. */
  lemma LookBackNone(body: seq<Word>, start: int, i: nat, r: int)
    requires i <= |body| && forall j: nat :: j < i < j + 8 ==> !(IsAdrp(body[j]) && Rd(body[j]) == r)
    ensures LookBack(body, start, i, r, i).None?
  {
    if LookBack(body, start, i, r, i).Some? {
      LookBackPairs(body, start, i, r, i, LookBack(body, start, i, r, i).value);
    }
  }

  /** The word at `j` is an ADRP of register `r`, `pages` pages on from `page`, still in force at `i`. */
  ghost predicate PageSet(body: seq<Word>, start: int, i: nat, r: int, j: nat, page: int, pages: int, rd: int)
  {
    && i < |body| && j < i < j + 8 && 0 <= r < 32 && rd == r && -0x10_0000 <= pages < 0x10_0000
    && page % 4096 == 0 && page <= start + 4 * j < page + 4096
    && body[j] == 0x9000_0000 + pages % 4 * 0x2000_0000 + pages / 4 % 0x8_0000 * 0x20 + rd
    && forall k :: j < k < i ==> !(IsAdrp(body[k]) && Rd(body[k]) == r)
  }

  lemma PageSetHeld(body: seq<Word>, start: int, i: nat, r: int, j: nat, page: int, pages: int, rd: int)
    requires PageSet(body, start, i, r, j, page, pages, rd)
    ensures LookBack(body, start, i, r, i) == Some(page + 4096 * pages)
  {
    AdrpWord(start + 4 * j, page, pages, rd);
    assert Pairs(body, i, r, j);
    LookBackPairs(body, start, i, r, i, page + 4096 * pages);
  }

  /** An LDR off a page set by an ADRP names the GOT slot at that page and its byte offset, and nothing else. */
  lemma LdrNamesSlot(lib: Library, mode: Mode, start: int, end: int, body: seq<Word>, i: nat, j: nat,
                     page: int, pages: int, offset: int, rn: int, rt: int)
    requires PageSet(body, start, i, rn, j, page, pages, rn)
    requires 0 <= offset < 0x8000 && offset % 8 == 0 && 0 <= rt < 32
    requires body[i] == 0xF940_0000 + offset / 8 * 0x400 + rn * 0x20 + rt
    ensures var slot := page + 4096 * pages + offset;
            InsnEvents(lib, mode, start, end, body, i) ==
            if slot in lib.got then [Scanned, Slot(lib.got[slot])] else [Scanned]
  {
    hide LookBack, PageSet;
    PageSetHeld(body, start, i, rn, j, page, pages, rn);
    PageSetIndex(body, start, i, rn, j, page, pages, rn);
    LdrWord(offset, rn, rt);
    NoBranch(lib, mode, start, end, start + 4 * i, body[i]);
  }

  lemma PageSetIndex(body: seq<Word>, start: int, i: nat, r: int, j: nat, page: int, pages: int, rd: int)
    requires PageSet(body, start, i, r, j, page, pages, rd)
    ensures i < |body| && 0 <= r < 32
  {
  }

  /** An ADD to such a page takes the address it adds up to, if that is an FDE's start and they are followed. */
  lemma AddTakesAddress(lib: Library, mode: Mode, start: int, end: int, body: seq<Word>, i: nat, j: nat,
                        page: int, pages: int, imm: int, shift: int, rn: int, rd: int)
    requires PageSet(body, start, i, rn, j, page, pages, rn)
    requires 0 <= imm < 0x1000 && (shift == 0 || shift == 1) && 0 <= rd < 32
    requires body[i] == 0x9100_0000 + shift * 0x40_0000 + imm * 0x400 + rn * 0x20 + rd
    ensures var t := page + 4096 * pages + imm;
            InsnEvents(lib, mode, start, end, body, i) ==
            if mode.followAddressTaken && t in Starts(lib) then [Scanned, Taken(t)] else [Scanned]
  {
    hide LookBack, PageSet, Starts;
    PageSetHeld(body, start, i, rn, j, page, pages, rn);
    PageSetIndex(body, start, i, rn, j, page, pages, rn);
    AddWord(imm, shift, rn, rd);
    NoBranch(lib, mode, start, end, start + 4 * i, body[i]);
  }

  /** An ADR takes the address its displacement leads to, in the same way. */
  lemma AdrTakesAddress(lib: Library, mode: Mode, start: int, end: int, body: seq<Word>, i: nat,
                        displacement: int, rd: int)
    requires i < |body| && -0x10_0000 <= displacement < 0x10_0000 && 0 <= rd < 32
    requires body[i] == 0x1000_0000 + displacement % 4 * 0x2000_0000 + displacement / 4 % 0x8_0000 * 0x20 + rd
    ensures var t := start + 4 * i + displacement;
            InsnEvents(lib, mode, start, end, body, i) ==
            if mode.followAddressTaken && t in Starts(lib) then [Scanned, Taken(t)] else [Scanned]
  {
    hide LookBack, Starts, AdrTarget;
    AdrWord(start + 4 * i, displacement, rd);
    NoBranch(lib, mode, start, end, start + 4 * i, body[i]);
  }

  lemma NoBranch(lib: Library, mode: Mode, start: int, end: int, pc: int, w: Word)
    requires IsLdr(w) || IsAdd(w) || IsAdr(w)
    ensures BranchEvents(lib, mode, start, end, pc, w) == []
  {
    BranchWords(w);
    AddressWords(w);
  }

  /** The events of the first `n` instructions. */
  function EventsTo(lib: Library, mode: Mode, start: int, end: int, body: seq<Word>, n: nat): seq<Event>
    requires n <= |body|
  {
    if n == 0 then [] else EventsTo(lib, mode, start, end, body, n - 1) + InsnEvents(lib, mode, start, end, body, n - 1)
  }

  /** The events of scanning `length` bytes from `f`. */
  function ScanEvents(lib: Library, mode: Mode, f: int, length: int): seq<Event>
  {
    var body := Body(lib.words, f, f + length);
    EventsTo(lib, mode, f, f + length, body, |body|)
  }

  /** How much of each function was scanned. */
  type Extents = map<int, int>

  function LengthIn(ext: Extents, f: int): int
  {
    if f in ext then ext[f] else 0
  }

  /** The events of several functions, one function after another. */
  function AllEvents(lib: Library, mode: Mode, ext: Extents, fs: seq<int>): seq<Event>
  {
    if fs == [] then []
    else AllEvents(lib, mode, ext, fs[..|fs| - 1]) + ScanEvents(lib, mode, fs[|fs| - 1], LengthIn(ext, fs[|fs| - 1]))
  }

  lemma {:induction false} AllEventsLocal(lib: Library, mode: Mode, ext: Extents, more: Extents, fs: seq<int>)
    requires forall f :: f in fs ==> LengthIn(ext, f) == LengthIn(more, f)
    ensures AllEvents(lib, mode, ext, fs) == AllEvents(lib, mode, more, fs)
    decreases |fs|
  {
    hide ScanEvents;
    if fs != [] {
      assert fs[|fs| - 1] in fs;
      AllEventsLocal(lib, mode, ext, more, fs[..|fs| - 1]);
    }
  }

  // ---------------------------------------------------------------- what events lead to

  function EventEdge(lib: Library, e: Event): set<int>
    requires Sorted(lib.bounds)
  {
    match e
    case Target(t) => if Resolve(lib, t).Some? then {Resolve(lib, t).value} else {}
    case Taken(t) => {t}
    case _ => {}
  }

  function EventsEdges(lib: Library, es: seq<Event>): set<int>
    requires Sorted(lib.bounds)
  {
    set e, g | e in es && g in EventEdge(lib, e) :: g
  }

  function ScanEdges(lib: Library, mode: Mode, f: int, length: int): set<int>
    requires Sorted(lib.bounds)
  {
    EventsEdges(lib, ScanEvents(lib, mode, f, length))
  }

  function Edges(lib: Library, mode: Mode, f: int): set<int>
    requires Sorted(lib.bounds)
  {
    ScanEdges(lib, mode, f, Extent(lib, f))
  }

  lemma EdgesAppend(lib: Library, a: seq<Event>, b: seq<Event>)
    requires Sorted(lib.bounds)
    ensures EventsEdges(lib, a + b) == EventsEdges(lib, a) + EventsEdges(lib, b)
  {
  }

  // ---------------------------------------------------------------- what events add up to

  datatype Tally = Tally(words: nat, imports: multiset<string>, slots: multiset<string>, calls: nat, jumps: nat,
                         unresolved: multiset<int>, midFunction: nat)

  const ZERO := Tally(0, multiset{}, multiset{}, 0, 0, multiset{}, 0)

  function Count(lib: Library, t: Tally, e: Event): Tally
    requires Sorted(lib.bounds)
  {
    match e
    case Scanned => t.(words := t.words + 1)
    case Import(n) => t.(imports := t.imports + multiset{n})
    case Target(a) =>
      if Resolve(lib, a).None? then t.(unresolved := t.unresolved + multiset{a})
      else if Containing(lib, a).Some? && Containing(lib, a).value != a then t.(midFunction := t.midFunction + 1)
      else t
    case Taken(_) => t
    case Slot(n) => t.(slots := t.slots + multiset{n})
    case IndirectCall => t.(calls := t.calls + 1)
    case IndirectJump => t.(jumps := t.jumps + 1)
  }

  function EventsTally(lib: Library, es: seq<Event>): Tally
    requires Sorted(lib.bounds)
  {
    if es == [] then ZERO else Count(lib, EventsTally(lib, es[..|es| - 1]), es[|es| - 1])
  }

  function ScanTally(lib: Library, mode: Mode, f: int, length: int): Tally
    requires Sorted(lib.bounds)
  {
    EventsTally(lib, ScanEvents(lib, mode, f, length))
  }

  function Plus(a: Tally, b: Tally): Tally
  {
    Tally(a.words + b.words, a.imports + b.imports, a.slots + b.slots, a.calls + b.calls, a.jumps + b.jumps,
          a.unresolved + b.unresolved, a.midFunction + b.midFunction)
  }

  lemma PlusAssociative(a: Tally, b: Tally, c: Tally)
    ensures Plus(Plus(a, b), c) == Plus(a, Plus(b, c))
    ensures Plus(a, b) == Plus(b, a) && Plus(a, ZERO) == a
  {
  }

  lemma MoreOne<T>(a: multiset<T>, b: multiset<T>, x: T)
    ensures (a + b) + multiset{x} == a + (b + multiset{x})
  {
  }

  lemma CountNamePlus(lib: Library, a: Tally, b: Tally, e: Event)
    requires Sorted(lib.bounds) && (e.Import? || e.Slot?)
    ensures Count(lib, Plus(a, b), e) == Plus(a, Count(lib, b, e))
  {
    if e.Import? {
      MoreOne(a.imports, b.imports, e.name);
    } else {
      MoreOne(a.slots, b.slots, e.name);
    }
  }

  lemma CountTargetPlus(lib: Library, a: Tally, b: Tally, t: int)
    requires Sorted(lib.bounds)
    ensures Count(lib, Plus(a, b), Target(t)) == Plus(a, Count(lib, b, Target(t)))
  {
    hide Containing, Synthesized, Resolve;
    MoreOne(a.unresolved, b.unresolved, t);
  }

  lemma CountPlus(lib: Library, a: Tally, b: Tally, e: Event)
    requires Sorted(lib.bounds)
    ensures Count(lib, Plus(a, b), e) == Plus(a, Count(lib, b, e))
  {
    hide Containing, Synthesized, Resolve;
    match e
    case Import(n) => CountNamePlus(lib, a, b, e);
    case Target(t) => CountTargetPlus(lib, a, b, t);
    case Slot(n) => CountNamePlus(lib, a, b, e);
    case _ =>
  }

  lemma {:induction false} TallyAppend(lib: Library, a: seq<Event>, b: seq<Event>)
    requires Sorted(lib.bounds)
    ensures EventsTally(lib, a + b) == Plus(EventsTally(lib, a), EventsTally(lib, b))
    decreases |b|
  {
    hide Plus, Count;
    if b == [] {
      assert a + b == a;
      PlusAssociative(EventsTally(lib, a), ZERO, ZERO);
    } else {
      var init, last := b[..|b| - 1], b[|b| - 1];
      assert (a + b)[..|a + b| - 1] == a + init;
      TallyAppend(lib, a, init);
      CountPlus(lib, EventsTally(lib, a), EventsTally(lib, init), last);
    }
  }

  // ---------------------------------------------------------------- the closure

  /** Holds the resolved roots and every function an edge of the mode leads to. */
  ghost predicate IsClosed(lib: Library, mode: Mode, roots: seq<int>, s: set<int>)
    requires Sorted(lib.bounds)
  {
    && (forall r :: r in roots && Resolve(lib, r).Some? ==> Resolve(lib, r).value in s)
    && forall f :: f in s ==> Edges(lib, mode, f) <= s
  }

  ghost predicate IsLeastClosed(lib: Library, mode: Mode, roots: seq<int>, s: set<int>)
    requires Sorted(lib.bounds)
  {
    IsClosed(lib, mode, roots, s) && forall c :: IsClosed(lib, mode, roots, c) ==> s <= c
  }

  function SumTally(lib: Library, mode: Mode, ext: Extents, fs: seq<int>): Tally
    requires Sorted(lib.bounds)
  {
    if fs == [] then ZERO
    else Plus(SumTally(lib, mode, ext, fs[..|fs| - 1]), ScanTally(lib, mode, fs[|fs| - 1], LengthIn(ext, fs[|fs| - 1])))
  }

  /** The events of functions scanned one after another add up function by function. */
  lemma {:induction false} TallyIsSum(lib: Library, mode: Mode, ext: Extents, fs: seq<int>)
    requires Sorted(lib.bounds)
    ensures EventsTally(lib, AllEvents(lib, mode, ext, fs)) == SumTally(lib, mode, ext, fs)
    decreases |fs|
  {
    hide ScanEvents;
    if fs != [] {
      var init, last := fs[..|fs| - 1], fs[|fs| - 1];
      TallyIsSum(lib, mode, ext, init);
      TallyAppend(lib, AllEvents(lib, mode, ext, init), ScanEvents(lib, mode, last, LengthIn(ext, last)));
    }
  }

  /** The roots and the edges of the scans that were made lead nowhere outside. */
  ghost predicate IsClosedUnder(lib: Library, mode: Mode, ext: Extents, roots: seq<int>, s: set<int>)
    requires Sorted(lib.bounds)
  {
    && (forall r :: r in roots && Resolve(lib, r).Some? ==> Resolve(lib, r).value in s)
    && forall f :: f in s && f in ext ==> ScanEdges(lib, mode, f, ext[f]) <= s
  }

  ghost predicate IsLeastUnder(lib: Library, mode: Mode, ext: Extents, roots: seq<int>, s: set<int>)
    requires Sorted(lib.bounds)
  {
    IsClosedUnder(lib, mode, ext, roots, s) && forall c :: IsClosedUnder(lib, mode, ext, roots, c) ==> s <= c
  }

  /** Where every scan was of the function's one extent, the set is the least closed one. */
  lemma LeastUnderOne(lib: Library, mode: Mode, ext: Extents, roots: seq<int>, s: set<int>)
    requires Sorted(lib.bounds) && IsLeastUnder(lib, mode, ext, roots, s) && ext.Keys == s
    requires forall f :: f in s ==> ext[f] == Extent(lib, f)
    ensures IsLeastClosed(lib, mode, roots, s)
  {
    hide ScanEdges, Extent, Resolve;
    forall c | IsClosed(lib, mode, roots, c)
      ensures IsClosedUnder(lib, mode, ext, roots, c)
    {
    }
  }

  function RootEvents(roots: seq<int>): seq<Event>
  {
    seq(|roots|, i requires 0 <= i < |roots| => Target(roots[i]))
  }

  /** Where the last of one order stands in another. */
  lemma LastPicked<T>(a: seq<T>, b: seq<T>) returns (k: nat)
    requires multiset(a) == multiset(b) && a != []
    ensures k < |b| && b == b[..k] + [a[|a| - 1]] + b[k + 1..]
    ensures multiset(a[..|a| - 1]) == multiset(b[..k] + b[k + 1..])
  {
    var f := a[|a| - 1];
    assert f in multiset(b);
    k :| 0 <= k < |b| && b[k] == f;
    assert a == a[..|a| - 1] + [f];
    assert b == b[..k] + [f] + b[k + 1..];
    assert multiset(b) == multiset(b[..k] + b[k + 1..]) + multiset{f};
    assert multiset(a[..|a| - 1]) == multiset(a) - multiset{f};
  }

  /** Sums over the same functions agree, whatever order they were scanned in. */
  lemma {:induction false} SumOrderIrrelevant(lib: Library, mode: Mode, ext: Extents, a: seq<int>, b: seq<int>)
    requires Sorted(lib.bounds) && multiset(a) == multiset(b)
    ensures SumTally(lib, mode, ext, a) == SumTally(lib, mode, ext, b)
    decreases |a|
  {
    hide ScanTally, Plus;
    if a == [] {
      assert |multiset(b)| == |b|;
    } else {
      var f := a[|a| - 1];
      var k := LastPicked(a, b);
      SumOrderIrrelevant(lib, mode, ext, a[..|a| - 1], b[..k] + b[k + 1..]);
      SumPull(lib, mode, ext, b[..k], f, b[k + 1..]);
    }
  }

  lemma {:induction false} SumPull(lib: Library, mode: Mode, ext: Extents, a: seq<int>, f: int, b: seq<int>)
    requires Sorted(lib.bounds)
    ensures SumTally(lib, mode, ext, a + [f] + b) ==
            Plus(SumTally(lib, mode, ext, a + b), ScanTally(lib, mode, f, LengthIn(ext, f)))
    decreases |b|
  {
    hide ScanTally, Plus;
    if b == [] {
      assert a + [f] + b == a + [f] && a + b == a;
      assert (a + [f])[..|a|] == a;
    } else {
      var init, last := b[..|b| - 1], b[|b| - 1];
      var whole, without := a + [f] + b, a + b;
      assert whole[..|whole| - 1] == a + [f] + init;
      assert without[..|without| - 1] == a + init;
      SumPull(lib, mode, ext, a, f, init);
      var x, y, z := SumTally(lib, mode, ext, a + init), ScanTally(lib, mode, f, LengthIn(ext, f)),
        ScanTally(lib, mode, last, LengthIn(ext, last));
      PlusAssociative(x, y, z);
      PlusAssociative(y, z, ZERO);
      PlusAssociative(x, z, y);
    }
  }

  // ---------------------------------------------------------------- the three tiers

  const TIER_A0 := Mode(false, true)
  const TIER_A := Mode(false, false)
  const TIER_C := Mode(true, false)

  /** A mode that follows at least what another follows sees at least its edges. */
  lemma {:induction false} EventsToGrow(lib: Library, m: Mode, n: Mode, start: int, end: int, body: seq<Word>, k: nat)
    requires Sorted(lib.bounds) && k <= |body|
    requires (m.followAddressTaken ==> n.followAddressTaken) && (n.blOnly ==> m.blOnly)
    ensures EventsEdges(lib, EventsTo(lib, m, start, end, body, k)) <=
            EventsEdges(lib, EventsTo(lib, n, start, end, body, k))
  {
    hide InsnEvents, EventsEdges;
    if k > 0 {
      EventsToGrow(lib, m, n, start, end, body, k - 1);
      EdgesAppend(lib, EventsTo(lib, m, start, end, body, k - 1), InsnEvents(lib, m, start, end, body, k - 1));
      EdgesAppend(lib, EventsTo(lib, n, start, end, body, k - 1), InsnEvents(lib, n, start, end, body, k - 1));
      InsnEventsGrow(lib, m, n, start, end, body, k - 1);
    }
  }

  lemma InsnEventsGrow(lib: Library, m: Mode, n: Mode, start: int, end: int, body: seq<Word>, i: nat)
    requires Sorted(lib.bounds) && i < |body|
    requires (m.followAddressTaken ==> n.followAddressTaken) && (n.blOnly ==> m.blOnly)
    ensures EventsEdges(lib, InsnEvents(lib, m, start, end, body, i)) <=
            EventsEdges(lib, InsnEvents(lib, n, start, end, body, i))
  {
    hide EventsEdges, BranchEvents, AddressEvents, LookBack, Rn;
    var pc, w := start + 4 * i, body[i];
    var live := LookBack(body, start, i, Rn(w), i);
    BranchEventsGrow(lib, m, n, start, end, pc, w);
    AddressEventsGrow(lib, m, n, pc, w, live);
    InsnEdges(lib, BranchEvents(lib, m, start, end, pc, w), AddressEvents(lib, m, pc, w, live));
    InsnEdges(lib, BranchEvents(lib, n, start, end, pc, w), AddressEvents(lib, n, pc, w, live));
  }

  lemma InsnEdges(lib: Library, branch: seq<Event>, address: seq<Event>)
    requires Sorted(lib.bounds)
    ensures EventsEdges(lib, [Scanned] + branch + address) == EventsEdges(lib, branch) + EventsEdges(lib, address)
  {
    EdgesAppend(lib, [Scanned], branch);
    EdgesAppend(lib, [Scanned] + branch, address);
    assert EventsEdges(lib, [Scanned]) == {};
  }

  lemma AddressEventsGrow(lib: Library, m: Mode, n: Mode, pc: int, w: Word, live: Option<int>)
    requires Sorted(lib.bounds) && (m.followAddressTaken ==> n.followAddressTaken)
    ensures EventsEdges(lib, AddressEvents(lib, m, pc, w, live)) <= EventsEdges(lib, AddressEvents(lib, n, pc, w, live))
  {
    assert forall e :: e in AddressEvents(lib, m, pc, w, live) ==> e in AddressEvents(lib, n, pc, w, live);
  }

  lemma BranchEventsGrow(lib: Library, m: Mode, n: Mode, start: int, end: int, pc: int, w: Word)
    requires Sorted(lib.bounds) && (n.blOnly ==> m.blOnly)
    ensures EventsEdges(lib, BranchEvents(lib, m, start, end, pc, w)) <=
            EventsEdges(lib, BranchEvents(lib, n, start, end, pc, w))
  {
    if m.blOnly && !n.blOnly && !IsBl(w) {
      assert forall e :: e in BranchEvents(lib, m, start, end, pc, w) ==> e == IndirectCall || e == IndirectJump;
    }
  }

  lemma EdgesGrow(lib: Library, m: Mode, n: Mode, f: int)
    requires Sorted(lib.bounds)
    requires (m.followAddressTaken ==> n.followAddressTaken) && (n.blOnly ==> m.blOnly)
    ensures Edges(lib, m, f) <= Edges(lib, n, f)
  {
    hide EventsEdges, EventsTo, Extent, Body;
    var body := Body(lib.words, f, f + Extent(lib, f));
    EventsToGrow(lib, m, n, f, f + Extent(lib, f), body, |body|);
  }

  /** Following more edges can only find more functions: tiers A0, A and C nest. */
  lemma TiersNest(lib: Library, roots: seq<int>, a0: set<int>, a: set<int>, c: set<int>)
    requires Sorted(lib.bounds)
    requires IsLeastClosed(lib, TIER_A0, roots, a0) && IsLeastClosed(lib, TIER_A, roots, a)
    requires IsLeastClosed(lib, TIER_C, roots, c)
    ensures a0 <= a <= c
  {
    hide Edges, Resolve;
    forall f
      ensures Edges(lib, TIER_A0, f) <= Edges(lib, TIER_A, f) <= Edges(lib, TIER_C, f)
    {
      EdgesGrow(lib, TIER_A0, TIER_A, f);
      EdgesGrow(lib, TIER_A, TIER_C, f);
    }
    assert IsClosed(lib, TIER_A0, roots, a);
    assert IsClosed(lib, TIER_A, roots, c);
  }

  /**
   * Tier A0 follows calls only, tier A every branch out of the function, and tier C addresses taken too: a
   * BL is followed in all three, a B out of the function in the last two, an address in the last.
   */
  lemma TiersFollow(lib: Library, start: int, end: int, pc: int, w: Word, t: int)
    requires BlTarget(w, pc) !in lib.stubs && !(start <= BlTarget(w, pc) < end) && t in Starts(lib)
    ensures 0x9400_0000 <= w < 0x9800_0000 ==>
              BranchEvents(lib, TIER_A0, start, end, pc, w) == BranchEvents(lib, TIER_A, start, end, pc, w)
              == BranchEvents(lib, TIER_C, start, end, pc, w) == [Target(BlTarget(w, pc))]
    ensures 0x1400_0000 <= w < 0x1800_0000 ==>
              BranchEvents(lib, TIER_A0, start, end, pc, w) == [] &&
              BranchEvents(lib, TIER_A, start, end, pc, w) == BranchEvents(lib, TIER_C, start, end, pc, w)
              == [Target(BlTarget(w, pc))]
    ensures TakenEvents(lib, TIER_A0, t) == TakenEvents(lib, TIER_A, t) == []
    ensures TakenEvents(lib, TIER_C, t) == [Taken(t)]
  {
    BranchWords(w);
    hide BlTarget, Starts;
  }

  /** There is only one least closed set, so the functions found do not depend on the scan order. */
  lemma LeastClosedUnique(lib: Library, mode: Mode, roots: seq<int>, a: set<int>, b: set<int>)
    requires Sorted(lib.bounds)
    requires IsLeastClosed(lib, mode, roots, a) && IsLeastClosed(lib, mode, roots, b)
    ensures a == b
  {
  }
}
