/** The worklist closure over a library, scanning each function it reaches once. */
module Reachability {
  import opened Wrappers
  import opened A64
  import opened Library
  import opened Worklist

  class Reach {
    const lib: Library
    var visited: set<int>
    var work: seq<int>
    var synth: map<int, int>
    var blOnly: bool
    /** plt_hits, got_hits, blr_sites, br_sites, unresolved_targets, mid_function_targets, words_scanned. */
    var counters: Tally
    var addressTaken: set<int>
    /** The functions scanned, in order, and how much of each. */
    ghost var order: seq<int>
    ghost var used: Extents

    constructor (lib: Library)
      ensures this.lib == lib
    {
      this.lib := lib;
      visited, work, synth, blOnly := {}, [], map[], false;
      counters, addressTaken, order, used := ZERO, {}, [], map[];
    }

    /** The object's state as a value. */
    ghost function Now(): Search
      reads this
    {
      Search(visited, work, synth, counters, addressTaken, order, used)
    }

    ghost predicate Valid()
      requires Sorted(lib.bounds)
      reads this
    {
      Known(lib, Now())
    }

    /** A scan changes the object only by what these events lead to and count. */
    twostate predicate Does(es: seq<Event>)
      requires Sorted(lib.bounds)
      reads this
    {
      Now() == ReachedAll(lib, old(Now()), es) && blOnly == old(blOnly)
    }

    twostate lemma DoesOne(e: Event)
      requires Sorted(lib.bounds) && old(Valid()) && (e.Taken? ==> e.start in Starts(lib))
      requires Now() == Reached(lib, old(Now()), e) && blOnly == old(blOnly)
      ensures Valid() && Does([e])
    {
      hide Known, Reached, Starts;
      ReachedOne(lib, old(Now()), e);
      ReachedKeeps(lib, Mode(true, true), old(Now()), e);
    }

    method Reset()
      requires Sorted(lib.bounds)
      modifies this
      ensures Valid() && Now() == NOTHING && blOnly == false
    {
      visited, work, synth, blOnly := {}, [], map[], false;
      counters, addressTaken, order, used := ZERO, {}, [], map[];
    }

    /** The length up to and with the first RET, if it comes within the limit and before anything unreadable. */
    method Synthesize(target: int) returns (r: Option<int>)
      ensures r == Synthesized(lib, target)
      ensures forall n :: r == Some(n) <==>
              exists k: nat :: k < SYNTH_LIMIT_WORDS && FirstRet(lib.words, target, k) && n == 4 * k + 4
    {
      forall n
        ensures Synthesized(lib, target) == Some(n) <==>
                exists k: nat :: k < SYNTH_LIMIT_WORDS && FirstRet(lib.words, target, k) && n == 4 * k + 4
      {
        SynthesizedExactly(lib, target, n);
      }
      var pc := target;
      for k := 0 to SYNTH_LIMIT_WORDS
        invariant pc == target + 4 * k
        invariant SynthesizeFrom(lib.words, target, SYNTH_LIMIT_WORDS) ==
                  SynthesizeFrom(lib.words, pc, SYNTH_LIMIT_WORDS - k)
      {
        if pc !in lib.words {
          return None;
        }
        if lib.words[pc] == RET {
          return Some(pc + 4 - target);
        }
        pc := pc + 4;
      }
      return None;
    }

    /** Put `f` on the worklist unless it has been there. */
    method Enqueue(f: int)
      modifies this`visited, this`work
      ensures Now() == Visit(old(Now()), f)
    {
      if f !in visited {
        visited := visited + {f};
        work := work + [f];
      }
    }

    /** A direct target: its function is visited, or it is counted as unresolved. */
    method Add(target: int)
      requires Sorted(lib.bounds) && Valid()
      modifies this
      ensures Valid() && Does([Target(target)])
    {
      hide Synthesized, Containing, Starts, Visit, FirstRet;
      var found := Containing(lib, target);
      var f := target;
      if found.None? {
        if target !in synth {
          var length := Synthesize(target);
          if length.None? {
            counters := counters.(unresolved := counters.unresolved + multiset{target});
            DoesOne(Target(target));
            return;
          }
          synth := synth[target := length.value];
        }
        assert synth == old(synth)[target := Synthesized(lib, target).value];
      } else {
        f := found.value;
        if f != target {
          counters := counters.(midFunction := counters.midFunction + 1);
        }
      }
      Enqueue(f);
      DoesOne(Target(target));
    }

    /** An FDE start whose address is materialised. */
    method Take(t: int, followAddressTaken: bool)
      requires Sorted(lib.bounds) && Valid()
      modifies this
      ensures Valid() && Does(TakenEvents(lib, Mode(followAddressTaken, blOnly), t))
    {
      hide Synthesized, Containing, Starts, Visit, Known;
      if followAddressTaken && t in Starts(lib) {
        addressTaken := addressTaken + {t};
        Enqueue(t);
        DoesOne(Taken(t));
      }
    }

    /** The control-transfer half of scanning one instruction. */
    method ScanBranch(start: int, end: int, pc: int, word: Word, followAddressTaken: bool)
      requires Sorted(lib.bounds) && Valid()
      modifies this
      ensures Valid() && Does(BranchEvents(lib, Mode(followAddressTaken, blOnly), start, end, pc, word))
    {
      hide Known, ReachedAll, BlTarget, B19Target, B14Target, IsBl, IsB, IsBCond, IsCbz, IsTbz, IsBlr, IsBr;
      ReachedOne(lib, Now(), Scanned);
      if IsBl(word) {
        var target := BlTarget(word, pc);
        if target in lib.stubs {
          HitImport(lib.stubs[target]);
        } else {
          Add(target);
        }
      } else if IsB(word) && !blOnly {
        var target := BlTarget(word, pc);
        if target in lib.stubs {
          HitImport(lib.stubs[target]);
        } else if !(start <= target < end) {
          Add(target);
        }
      } else if IsBCond(word) && !blOnly {
        var target := B19Target(word, pc);
        if !(start <= target < end) {
          Add(target);
        }
      } else if IsCbz(word) && !blOnly {
        var target := B19Target(word, pc);
        if !(start <= target < end) {
          Add(target);
        }
      } else if IsTbz(word) && !blOnly {
        var target := B14Target(word, pc);
        if !(start <= target < end) {
          Add(target);
        }
      } else if IsBlr(word) {
        IndirectSite(IndirectCall);
      } else if IsBr(word) {
        IndirectSite(IndirectJump);
      }
    }

    method HitImport(name: string)
      requires Sorted(lib.bounds) && Valid()
      modifies this
      ensures Valid() && Does([Import(name)])
    {
      counters := counters.(imports := counters.imports + multiset{name});
      hide Known;
      DoesOne(Import(name));
    }

    method HitSlot(name: string)
      requires Sorted(lib.bounds) && Valid()
      modifies this
      ensures Valid() && Does([Slot(name)])
    {
      counters := counters.(slots := counters.slots + multiset{name});
      hide Known;
      DoesOne(Slot(name));
    }

    /** A BLR or BR site, or one more word scanned. */
    method IndirectSite(e: Event)
      requires Sorted(lib.bounds) && Valid() && (e.IndirectCall? || e.IndirectJump? || e.Scanned?)
      modifies this
      ensures Valid() && Does([e])
    {
      match e {
        case IndirectCall => counters := counters.(calls := counters.calls + 1);
        case IndirectJump => counters := counters.(jumps := counters.jumps + 1);
        case Scanned => counters := counters.(words := counters.words + 1);
      }
      hide Known;
      DoesOne(e);
    }

    /** The address-materialisation half: GOT slots and address-taken functions. */
    method ScanAddress(pc: int, word: Word, pages: map<int, Live>, followAddressTaken: bool)
      returns (pages': map<int, Live>)
      requires Sorted(lib.bounds) && Valid()
      modifies this
      ensures Valid()
      ensures Does(AddressEvents(lib, Mode(followAddressTaken, blOnly), pc, word, PageOf(pages, Rn(word))))
      ensures pages' == Marked(pages, word, pc)
    {
      hide Known, ReachedAll, TakenEvents, IsAdrp, IsAdr, IsLdr, IsAdd, AdrpPage, AdrTarget, Imm12, Rd, Rn;
      ReachedOne(lib, Now(), Scanned);
      pages' := pages;
      if IsAdrp(word) {
        pages' := pages[Rd(word) := Live(AdrpPage(word, pc), ADRP_USE_WINDOW)];
      } else if IsAdr(word) {
        Take(AdrTarget(word, pc), followAddressTaken);
      } else if pages != map[] {
        var base := Rn(word);
        if IsLdr(word) {
          if base in pages {
            var slot := pages[base].page + Imm12(word) * 8;
            if slot in lib.got {
              HitSlot(lib.got[slot]);
            }
          }
        } else if IsAdd(word) {
          if base in pages {
            Take(pages[base].page + Imm12(word), followAddressTaken);
          }
        }
      }
    }

    /** One turn of the scanning loop: count the word, both halves, and age the known pages. */
    method ScanInsn(start: int, end: int, pc: int, pages: map<int, Live>, followAddressTaken: bool,
                    ghost body: seq<Word>, ghost i: nat)
      returns (pages': map<int, Live>)
      requires Sorted(lib.bounds) && Valid()
      requires i < |body| && pc == start + 4 * i && pc in lib.words && body[i] == lib.words[pc]
      requires PagesMatch(pages, body, start, i)
      modifies this
      ensures Valid() && PagesMatch(pages', body, start, i + 1)
      ensures Does(InsnEvents(lib, Mode(followAddressTaken, blOnly), start, end, body, i))
    {
      hide Known, ReachedAll, PagesMatch, BranchEvents, AddressEvents, Marked, PageOf, LookBack;
      ghost var mode := Mode(followAddressTaken, blOnly);
      ghost var before := Now();
      var word := lib.words[pc];
      IndirectSite(Scanned);
      ScanBranch(start, end, pc, word, followAddressTaken);
      PagesGive(pages, body, start, i, Rn(word));
      PagesNext(pages, body, start, i);
      pages' := ScanAddress(pc, word, pages, followAddressTaken);
      pages' := AgePages(pages');
      ghost var branch := BranchEvents(lib, mode, start, end, pc, word);
      ReachedAppend(lib, before, [Scanned], branch);
      ReachedAppend(lib, before, [Scanned] + branch, AddressEvents(lib, mode, pc, word, LookBack(body, start, i,
                    Rn(word), i)));
    }

    method LengthOf(start: int) returns (length: int)
      requires Sorted(lib.bounds) && Valid() && start in visited
      ensures length == LengthNow(lib, Now(), start)
    {
      if start in synth {
        length := synth[start];
      } else {
        StartFound(lib, start);
        length := lib.bounds[BisectLeft(lib.bounds, start)].length;
      }
    }

    method ScanWords(start: int, end: int, followAddressTaken: bool)
      requires Sorted(lib.bounds) && Valid()
      modifies this
      ensures Valid()
      ensures var body := Body(lib.words, start, end);
              Does(EventsTo(lib, Mode(followAddressTaken, blOnly), start, end, body, |body|))
    {
      hide Known, ReachedAll, Sorted, InsnEvents, PagesMatch;
      ghost var mode := Mode(followAddressTaken, blOnly);
      ghost var body := Body(lib.words, start, end);
      ghost var before := Now();
      var pages: map<int, Live> := map[];
      var pc := start;
      ghost var i: nat := 0;
      assert body[0..] == body;
      PagesStart(body, start);
      ReachedOne(lib, before, Scanned);
      while pc < end
        invariant i <= |body| && pc == start + 4 * i && body[i..] == Body(lib.words, pc, end)
        invariant Valid() && mode == Mode(followAddressTaken, blOnly)
        invariant Now() == ReachedAll(lib, before, EventsTo(lib, mode, start, end, body, i))
        invariant PagesMatch(pages, body, start, i)
        decreases end - pc
      {
        if pc !in lib.words {
          break;
        }
        assert body[i..][0] == lib.words[pc] && body[i..][1..] == body[i + 1..];
        pages := ScanInsn(start, end, pc, pages, followAddressTaken, body, i);
        ReachedAppend(lib, before, EventsTo(lib, mode, start, end, body, i), InsnEvents(lib, mode, start, end, body,
                      i));
        i := i + 1;
        pc := pc + 4;
      }
      assert i == |body|;
    }

    /** Scan the function last put on the worklist. */
    method ScanNext(followAddressTaken: bool)
      requires Sorted(lib.bounds) && Valid() && work != [] && work[|work| - 1] in visited
      modifies this
      ensures Valid() && blOnly == old(blOnly)
      ensures Now() == Turn(lib, Mode(followAddressTaken, blOnly), old(Now()))
    {
      hide ReachedAll, Sorted, EventsTo, Body, Starts, Containing, Synthesized;
      var f := work[|work| - 1];
      ghost var before := Now();
      var length := LengthOf(f);
      work := work[..|work| - 1];
      order, used := order + [f], used[f := length];
      assert Now() == Popped(lib, before);
      ScanWords(f, f + length, followAddressTaken);
    }

    /**
     * The whole closure. Whatever the tables are, it ends as the run on values does: the functions it
     * has scanned are those it found, each scanned once with an extent it has, and they are the least set
     * that holds the resolved roots and that the scans do not lead out of. It is the least closed set of
     * the mode if address-taken edges are not followed, or no start has two extents.
     */
    method Closure(roots: seq<int>, followAddressTaken: bool, blOnly: bool)
      requires Sorted(lib.bounds)
      modifies this
      ensures var mode := Mode(followAddressTaken, blOnly);
              && Now() == Found(lib, mode, roots)
              && multiset(order) == multiset(visited) && used.Keys == visited
              && (forall f :: f in visited ==> MayScan(lib, mode, f, used[f]))
              && IsLeastUnder(lib, mode, used, roots, visited)
              && counters == Plus(EventsTally(lib, RootEvents(roots)), SumTally(lib, mode, used, order))
              && (!followAddressTaken || Unambiguous(lib) ==> IsLeastClosed(lib, mode, roots, visited))
    {
      ghost var mode := Mode(followAddressTaken, blOnly);
      hide Turn, Good, Found, Known, Sorted, Plus, SumTally, EventsTally, IsLeastUnder, IsLeastClosed, MayScan,
           Unambiguous, RootEvents, ReachedAll;
      AddRoots(roots, blOnly);
      ghost var started := Now();
      ghost var n: nat := 0;
      while work != []
        invariant Valid() && this.blOnly == blOnly && started == Started(lib, roots)
        invariant n <= |Universe(lib)| && Now() == Turns(lib, mode, started, n)
        decreases |Universe(lib)| - n
      {
        TurnsLeft(lib, mode, roots, n);
        ScanNext(followAddressTaken);
        n := n + 1;
      }
      TurnsStop(lib, mode, started, n, |Universe(lib)|);
      FoundIs(lib, mode, roots);
      FoundTells(lib, mode, roots);
      if !followAddressTaken || Unambiguous(lib) {
        FoundLeastClosed(lib, mode, roots);
      }
    }

    method AddRoots(roots: seq<int>, blOnly: bool)
      requires Sorted(lib.bounds)
      modifies this
      ensures Valid() && this.blOnly == blOnly && Now() == Started(lib, roots)
    {
      hide Known, Sorted, ReachedAll;
      Reset();
      this.blOnly := blOnly;
      ReachedOne(lib, NOTHING, Scanned);
      assert RootEvents(roots[..0]) == [];
      for k := 0 to |roots|
        invariant Valid() && this.blOnly == blOnly
        invariant Now() == ReachedAll(lib, NOTHING, RootEvents(roots[..k]))
      {
        Add(roots[k]);
        assert RootEvents(roots[..k + 1]) == RootEvents(roots[..k]) + [Target(roots[k])];
        ReachedAppend(lib, NOTHING, RootEvents(roots[..k]), [Target(roots[k])]);
      }
      assert roots[..|roots|] == roots;
    }
  }

  // ---------------------------------------------------------------- turns and starts

  lemma StartFound(lib: Library, f: int)
    requires Sorted(lib.bounds) && f in Starts(lib)
    ensures var i := BisectLeft(lib.bounds, f); i < |lib.bounds| && lib.bounds[i].start == f
  {
    var k :| 0 <= k < |lib.bounds| && lib.bounds[k].start == f;
    assert BisectLeft(lib.bounds, f) <= k;
  }

  lemma {:induction false} TurnsStop(lib: Library, mode: Mode, s: Search, m: nat, n: nat)
    requires Sorted(lib.bounds) && m <= n && Turns(lib, mode, s, m).work == []
    ensures Turns(lib, mode, s, n) == Turns(lib, mode, s, m)
    decreases n - m
  {
    hide Turn;
    if m < n {
      TurnsStop(lib, mode, s, m, n - 1);
    }
  }

  lemma TurnsLeft(lib: Library, mode: Mode, roots: seq<int>, n: nat)
    requires Sorted(lib.bounds) && n <= |Universe(lib)| && Turns(lib, mode, Started(lib, roots), n).work != []
    ensures n < |Universe(lib)|
    ensures var s := Turns(lib, mode, Started(lib, roots), n); s.work[|s.work| - 1] in s.visited
  {
    hide Turns, Started, Universe, Known, Called, Measured, Accounted, Needed;
    Ends(lib, mode, roots);
    TurnsGood(lib, mode, roots, n);
    NextUnscanned(Turns(lib, mode, Started(lib, roots), n));
  }

  lemma FoundIs(lib: Library, mode: Mode, roots: seq<int>)
    requires Sorted(lib.bounds)
    ensures Found(lib, mode, roots) == Turns(lib, mode, Started(lib, roots), |Universe(lib)|)
  {
  }

  // ---------------------------------------------------------------- the ADRP life map

  /** A page a register is known to hold, and for how many more instructions. */
  datatype Live = Live(page: int, life: int)

  function PageOf(pages: map<int, Live>, r: int): Option<int>
  {
    if r in pages then Some(pages[r].page) else None
  }

  predicate Registers(pages: map<int, Live>)
  {
    forall r :: r in pages ==> 0 <= r < REGISTERS
  }

  /** A page held names an ADRP in the window; one `d` instructions ago has `ADRP_USE_WINDOW - d` life left. */
  ghost predicate HeldArePaired(pages: map<int, Live>, body: seq<Word>, start: int, i: nat)
    requires i <= |body|
  {
    forall r :: r in pages ==>
      && 0 < pages[r].life < ADRP_USE_WINDOW
      && var j := i - (ADRP_USE_WINDOW - pages[r].life);
         j >= 0 && Pairs(body, i, r, j) && AdrpPage(body[j], start + 4 * j) == pages[r].page
  }

  /** An ADRP in the window that is its register's latest is held. */
  ghost predicate PairedAreHeld(pages: map<int, Live>, body: seq<Word>, i: nat)
    requires i <= |body|
  {
    forall r, j: nat :: j < i && Pairs(body, i, r, j) ==> r in pages
  }

  /** The map holds exactly the pages that looking back over the window finds. */
  ghost predicate PagesMatch(pages: map<int, Live>, body: seq<Word>, start: int, i: nat)
    requires i <= |body|
  {
    Registers(pages) && HeldArePaired(pages, body, start, i) && PairedAreHeld(pages, body, i)
  }

  lemma PagesStart(body: seq<Word>, start: int)
    ensures PagesMatch(map[], body, start, 0)
  {
  }

  lemma PagesGive(pages: map<int, Live>, body: seq<Word>, start: int, i: nat, r: int)
    requires i <= |body| && PagesMatch(pages, body, start, i)
    ensures PageOf(pages, r) == LookBack(body, start, i, r, i)
  {
    hide IsAdrp, Rd, AdrpPage;
    if r in pages {
      var j: nat := i - (ADRP_USE_WINDOW - pages[r].life);
      assert Pairs(body, i, r, j);
      LookBackPairs(body, start, i, r, i, pages[r].page);
    } else if LookBack(body, start, i, r, i).Some? {
      LookBackPairs(body, start, i, r, i, LookBack(body, start, i, r, i).value);
    }
  }

  function Marked(pages: map<int, Live>, word: Word, pc: int): map<int, Live>
  {
    if IsAdrp(word) then pages[Rd(word) := Live(AdrpPage(word, pc), ADRP_USE_WINDOW)] else pages
  }

  /** The pages after an instruction: one life less, those on their last are gone. */
  ghost function Aged(pages: map<int, Live>): map<int, Live>
  {
    map r | r in pages && pages[r].life > 1 :: Live(pages[r].page, pages[r].life - 1)
  }

  method AgePages(pages: map<int, Live>) returns (aged: map<int, Live>)
    requires Registers(pages)
    ensures aged == Aged(pages)
  {
    aged := pages;
    for reg := 0 to REGISTERS
      invariant aged == map r | r in pages && (r >= reg || pages[r].life > 1) ::
                          if r >= reg then pages[r] else Live(pages[r].page, pages[r].life - 1)
    {
      if reg in aged {
        var live := aged[reg];
        if live.life <= 1 {
          aged := aged - {reg};
        } else {
          aged := aged[reg := Live(live.page, live.life - 1)];
        }
      }
    }
  }

  lemma PagesNext(pages: map<int, Live>, body: seq<Word>, start: int, i: nat)
    requires i < |body| && PagesMatch(pages, body, start, i)
    ensures Registers(Marked(pages, body[i], start + 4 * i))
    ensures PagesMatch(Aged(Marked(pages, body[i], start + 4 * i)), body, start, i + 1)
  {
    var marked := Marked(pages, body[i], start + 4 * i);
    assert Registers(marked) && Registers(Aged(marked));
    HeldNext(pages, body, start, i);
    HeldCoversNext(pages, body, start, i);
  }

  lemma HeldNext(pages: map<int, Live>, body: seq<Word>, start: int, i: nat)
    requires i < |body| && HeldArePaired(pages, body, start, i)
    ensures HeldArePaired(Aged(Marked(pages, body[i], start + 4 * i)), body, start, i + 1)
  {
    hide IsAdrp, Rd, AdrpPage, Pairs;
    var next := Aged(Marked(pages, body[i], start + 4 * i));
    forall r | r in next
      ensures 0 < next[r].life < ADRP_USE_WINDOW
      ensures var j := i + 1 - (ADRP_USE_WINDOW - next[r].life);
              j >= 0 && Pairs(body, i + 1, r, j) && AdrpPage(body[j], start + 4 * j) == next[r].page
    {
      if IsAdrp(body[i]) && Rd(body[i]) == r {
        PairsAtOnce(body, i, r);
      } else {
        PairsStill(body, i, r, i - (ADRP_USE_WINDOW - pages[r].life));
      }
    }
  }

  lemma PairsAtOnce(body: seq<Word>, i: nat, r: int)
    requires i < |body| && IsAdrp(body[i]) && Rd(body[i]) == r
    ensures Pairs(body, i + 1, r, i)
  {
  }

  lemma PairsStill(body: seq<Word>, i: nat, r: int, j: nat)
    requires i < |body| && Pairs(body, i, r, j) && i + 1 < j + 8 && !(IsAdrp(body[i]) && Rd(body[i]) == r)
    ensures Pairs(body, i + 1, r, j)
  {
  }

  lemma HeldCoversNext(pages: map<int, Live>, body: seq<Word>, start: int, i: nat)
    requires i < |body| && HeldArePaired(pages, body, start, i) && PairedAreHeld(pages, body, i)
    ensures PairedAreHeld(Aged(Marked(pages, body[i], start + 4 * i)), body, i + 1)
  {
    hide IsAdrp, Rd, AdrpPage;
    var next := Aged(Marked(pages, body[i], start + 4 * i));
    forall r, j: nat {:trigger Pairs(body, i + 1, r, j)} | j < i + 1 && Pairs(body, i + 1, r, j)
      ensures r in next
    {
      if j < i {
        assert Pairs(body, i, r, j);
        assert Pairs(body, i, r, i - (ADRP_USE_WINDOW - pages[r].life));
        assert j == i - (ADRP_USE_WINDOW - pages[r].life);
      }
    }
  }
}
