/** Where the order of the roots does matter: one function calls what another only takes the address of. */
module ScanOrder {
  import opened Wrappers
  import opened Library
  import opened Worklist

  /** `f` leads to `z` and nowhere else, by its address; `g` calls it. */
  ghost predicate Crossing(lib: Library, mode: Mode, f: int, g: int, z: int)
    requires Sorted(lib.bounds)
  {
    && f != g && z != f && z != g && z in Starts(lib)
    && Containing(lib, f) == Some(f) && Containing(lib, g) == Some(g)
    && ScanEdges(lib, mode, f, TableLength(lib, f)) == {z}
    && Taken(z) in ScanEvents(lib, mode, f, TableLength(lib, f))
    && Target(z) !in ScanEvents(lib, mode, f, TableLength(lib, f))
    && Target(z) in ScanEvents(lib, mode, g, TableLength(lib, g))
  }

  // ---------------------------------------------------------------- what is guessed, and what stays

  lemma {:induction false} GuessedIfCalled(lib: Library, s: Search, es: seq<Event>, z: int)
    requires Sorted(lib.bounds) && Containing(lib, z).None? && Synthesized(lib, z).Some?
    ensures z in ReachedAll(lib, s, es).synth <==> z in s.synth || Target(z) in es
    decreases |es|
  {
    hide Containing, Synthesized, Count;
    if es != [] {
      GuessedIfCalled(lib, s, es[..|es| - 1], z);
      assert es == es[..|es| - 1] + [es[|es| - 1]];
    }
  }

  lemma {:induction false} WorkGrows(lib: Library, s: Search, es: seq<Event>)
    requires Sorted(lib.bounds)
    ensures s.work <= ReachedAll(lib, s, es).work
    decreases |es|
  {
    hide Containing, Synthesized, Count;
    if es != [] {
      WorkGrows(lib, s, es[..|es| - 1]);
    }
  }

  /** Once `z` has been scanned, or its length guessed, what is scanned of it is settled. */
  ghost predicate Settled(lib: Library, s: Search, z: int, n: int)
    requires Sorted(lib.bounds)
  {
    if z in s.used then s.used[z] == n else z in s.synth && Synthesized(lib, z) == Some(n)
  }

  lemma TurnSettled(lib: Library, mode: Mode, roots: seq<int>, s: Search, z: int, n: int)
    requires Sorted(lib.bounds) && Good(lib, mode, roots, s) && s.work != [] && Settled(lib, s, z, n)
    ensures Settled(lib, Turn(lib, mode, s), z, n)
  {
    hide Called, Accounted, Needed, ScanEvents, ReachedAll, Queued, MayScan, Containing, Synthesized, TableLength;
    NextUnscanned(s);
    TurnKeeps(lib, mode, roots, s);
    if z in s.synth {
      TurnGuessed(lib, mode, s, z);
    }
  }

  lemma TurnGuessed(lib: Library, mode: Mode, s: Search, z: int)
    requires Sorted(lib.bounds) && Known(lib, s) && s.work != [] && z in s.synth
    ensures z in Turn(lib, mode, s).synth
  {
    hide ScanEvents, LengthNow, ReachedAll, Containing, Synthesized;
    var f := s.work[|s.work| - 1];
    GuessedIfCalled(lib, Popped(lib, s), ScanEvents(lib, mode, f, LengthNow(lib, s, f)), z);
  }

  lemma {:induction false} StaysSettled(lib: Library, mode: Mode, roots: seq<int>, m: nat, n: nat, z: int, length: int)
    requires Sorted(lib.bounds) && m <= n
    requires Settled(lib, Turns(lib, mode, Started(lib, roots), m), z, length)
    ensures Settled(lib, Turns(lib, mode, Started(lib, roots), n), z, length)
    decreases n - m
  {
    hide Settled, Good, Turn, Started;
    if m < n {
      StaysSettled(lib, mode, roots, m, n - 1, z, length);
      TurnsGood(lib, mode, roots, n - 1);
      var s := Turns(lib, mode, Started(lib, roots), n - 1);
      if s.work != [] {
        TurnSettled(lib, mode, roots, s, z, length);
      }
    }
  }

  // ---------------------------------------------------------------- the two orders

  lemma StartedWith(lib: Library, a: int, b: int)
    requires Sorted(lib.bounds) && a != b && Containing(lib, a) == Some(a) && Containing(lib, b) == Some(b)
    ensures var s := Started(lib, [a, b]);
            s.work == [a, b] && s.visited == {a, b} && s.synth == map[] && s.order == [] && s.used == map[]
  {
    hide Containing, Synthesized, Count;
    var es := RootEvents([a, b]);
    assert es == [Target(a), Target(b)];
    assert es[..1] == [Target(a)];
    ReachedOne(lib, NOTHING, Target(a));
  }

  /** Scanning the caller first settles that what it calls is scanned as far as its first RET. */
  lemma CallerFirst(lib: Library, mode: Mode, f: int, g: int, z: int)
    requires Sorted(lib.bounds) && Crossing(lib, mode, f, g, z) && TwoExtents(lib, z)
    ensures Settled(lib, Turns(lib, mode, Started(lib, [f, g]), 1), z, Synthesized(lib, z).value)
  {
    hide ScanEvents, ScanEdges, Containing, Synthesized, TableLength, Starts;
    var s := Started(lib, [f, g]);
    StartedWith(lib, f, g);
    TurnsGood(lib, mode, [f, g], 0);
    TurnKeeps(lib, mode, [f, g], s);
    GuessedIfCalled(lib, Popped(lib, s), ScanEvents(lib, mode, g, TableLength(lib, g)), z);
    assert Turns(lib, mode, s, 1) == Turn(lib, mode, s);
  }

  /** Scanning the taker first puts what it takes on top of the worklist, with no guess made. */
  lemma TakerFirst(lib: Library, mode: Mode, f: int, g: int, z: int)
    requires Sorted(lib.bounds) && Crossing(lib, mode, f, g, z) && TwoExtents(lib, z)
    ensures var s := Turns(lib, mode, Started(lib, [g, f]), 1); s.work == [g, z] && z !in s.synth && s.order == [f]
  {
    hide ScanEvents, Containing, Synthesized, TableLength, Starts, EventsEdges, Known, Called, Accounted, Needed,
         Measured, EventsTally;
    var s := Started(lib, [g, f]);
    StartedWith(lib, g, f);
    TurnsGood(lib, mode, [g, f], 0);
    TurnKeeps(lib, mode, [g, f], s);
    var es := ScanEvents(lib, mode, f, TableLength(lib, f));
    var t := Turn(lib, mode, s);
    GuessedIfCalled(lib, Popped(lib, s), es, z);
    WorkGrows(lib, Popped(lib, s), es);
    ReachedAdds(lib, Popped(lib, s), es);
    assert t.visited == {g, f, z} && t.order == [f];
    OneMore(t, f, g, z);
    assert Turns(lib, mode, s, 1) == t;
  }

  lemma OneMore(t: Search, f: int, g: int, z: int)
    requires Queued(t) && t.visited == {g, f, z} && t.order == [f] && [g] <= t.work
    requires f != g && z != f && z != g
    ensures t.work == [g, z]
  {
    QueueSize(t);
    assert |t.visited| == 3;
    var w := t.work[1];
    assert t.work == [g, w];
    assert multiset(t.work) == multiset{g, w};
    assert multiset(t.visited)[z] == 1;
    assert multiset{f}[z] == 0;
    assert multiset{g, w}[z] == 1;
  }

  lemma TakerSettles(lib: Library, mode: Mode, f: int, g: int, z: int)
    requires Sorted(lib.bounds) && Crossing(lib, mode, f, g, z) && TwoExtents(lib, z)
    ensures Settled(lib, Turns(lib, mode, Started(lib, [g, f]), 2), z, TableLength(lib, z))
  {
    TakerFirst(lib, mode, f, g, z);
    TurnsGood(lib, mode, [g, f], 1);
    hide ScanEvents, Crossing, TwoExtents, TableLength, Good, Started, ReachedAll;
    var s := Turns(lib, mode, Started(lib, [g, f]), 1);
    TurnKeeps(lib, mode, [g, f], s);
    assert Turns(lib, mode, Started(lib, [g, f]), 2) == Turn(lib, mode, s);
  }

  lemma ThreeStarts(lib: Library, mode: Mode, f: int, g: int, z: int)
    requires Sorted(lib.bounds) && Crossing(lib, mode, f, g, z)
    ensures |Universe(lib)| >= 3
  {
    FoundIsStart(lib, f);
    FoundIsStart(lib, g);
    hide Starts, ScanEvents, ScanEdges, Containing;
    SubsetSize({f, g, z}, Universe(lib));
  }

  /** A function is scanned in a run only once it is settled how far. */
  lemma SettledFound(lib: Library, mode: Mode, roots: seq<int>, m: nat, z: int, n: int)
    requires Sorted(lib.bounds) && m <= |Universe(lib)|
    requires Settled(lib, Turns(lib, mode, Started(lib, roots), m), z, n) && z in Found(lib, mode, roots).visited
    ensures z in Found(lib, mode, roots).used && Found(lib, mode, roots).used[z] == n
  {
    hide Turns, Started, MayScan, IsLeastUnder, EventsTally, SumTally, Plus, Universe;
    StaysSettled(lib, mode, roots, m, |Universe(lib)|, z, n);
    FoundTells(lib, mode, roots);
  }

  /** The function taken is found in either order. */
  lemma TakenFound(lib: Library, mode: Mode, roots: seq<int>, f: int, z: int)
    requires Sorted(lib.bounds) && f in roots && Containing(lib, f) == Some(f)
    requires z in ScanEdges(lib, mode, f, TableLength(lib, f))
    ensures z in Found(lib, mode, roots).used
  {
    hide Found, SumTally, ScanEdges, EventsTally, Plus, TableLength, Containing;
    FoundTells(lib, mode, roots);
    var s := Found(lib, mode, roots);
    assert Resolve(lib, f) == Some(f);
    assert MayScan(lib, mode, f, s.used[f]);
  }

  lemma OrdersDiffer(lib: Library, mode: Mode, f: int, g: int, z: int)
    requires Sorted(lib.bounds) && Crossing(lib, mode, f, g, z) && TwoExtents(lib, z)
    requires z in Found(lib, mode, [f, g]).visited && z in Found(lib, mode, [g, f]).visited
    ensures z in Found(lib, mode, [f, g]).used && Found(lib, mode, [f, g]).used[z] == Synthesized(lib, z).value
    ensures z in Found(lib, mode, [g, f]).used && Found(lib, mode, [g, f]).used[z] == TableLength(lib, z)
  {
    ThreeStarts(lib, mode, f, g, z);
    CallerFirst(lib, mode, f, g, z);
    TakerSettles(lib, mode, f, g, z);
    hide Found, Crossing, TwoExtents, TableLength, Universe, Synthesized, Turns, Settled, Started;
    SettledFound(lib, mode, [f, g], 1, z, Synthesized(lib, z).value);
    SettledFound(lib, mode, [g, f], 2, z, TableLength(lib, z));
  }

  lemma UsedMayBeScanned(lib: Library, mode: Mode, roots: seq<int>, f: int)
    requires Sorted(lib.bounds) && f in Found(lib, mode, roots).used
    ensures MayScan(lib, mode, f, Found(lib, mode, roots).used[f]) && f in Found(lib, mode, roots).visited
  {
    hide Found, MayScan, SumTally, IsLeastUnder, Plus, EventsTally;
    FoundTells(lib, mode, roots);
  }

  /**
   * Where one function calls what another takes the address of, the two orders scan as much of it
   * exactly when it has only one extent. Otherwise they scan what was guessed and what the tables say.
   */
  lemma OrderMattersExactly(lib: Library, mode: Mode, f: int, g: int, z: int)
    requires Sorted(lib.bounds) && Crossing(lib, mode, f, g, z)
    ensures var s, t := Found(lib, mode, [f, g]).used, Found(lib, mode, [g, f]).used;
            && z in s && z in t && (s[z] == t[z] <==> !TwoExtents(lib, z))
            && (TwoExtents(lib, z) ==> s[z] == Synthesized(lib, z).value && t[z] == TableLength(lib, z))
  {
    hide Found, ScanEvents, EventsEdges, TableLength, Containing, Starts, Synthesized;
    TakenFound(lib, mode, [f, g], f, z);
    TakenFound(lib, mode, [g, f], f, z);
    UsedMayBeScanned(lib, mode, [f, g], z);
    UsedMayBeScanned(lib, mode, [g, f], z);
    if TwoExtents(lib, z) {
      OrdersDiffer(lib, mode, f, g, z);
    }
  }

  // ---------------------------------------------------------------- an input for which it does

  /** ADR x0, 16; RET; then BL 16; RET; then, at 16, BL 24; RET; then RET: the third has an FDE of length 0. */
  const CROSSED := Library(
    map[0 := 0x1000_0080, 4 := 0xD65F_03C0, 8 := 0x9400_0002, 12 := 0xD65F_03C0, 16 := 0x9400_0002, 20 := 0xD65F_03C0,
        24 := 0xD65F_03C0],
    [Bound(0, 8), Bound(8, 8), Bound(16, 0), Bound(24, 4)], map[], map[])

  lemma CrossedContaining()
    ensures Sorted(CROSSED.bounds) && Starts(CROSSED) == {0, 8, 16, 24}
    ensures Containing(CROSSED, 0) == Some(0) && Containing(CROSSED, 8) == Some(8)
    ensures Containing(CROSSED, 16) == None && Containing(CROSSED, 24) == Some(24)
    ensures TableLength(CROSSED, 0) == 8 && TableLength(CROSSED, 8) == 8 && TableLength(CROSSED, 16) == 0
    ensures Synthesized(CROSSED, 16) == Some(8)
  {
    var b := CROSSED.bounds;
    assert b[0] in b && b[1] in b && b[2] in b && b[3] in b;
    assert SynthesizeFrom(CROSSED.words, 20, SYNTH_LIMIT_WORDS - 1) == Some(24);
  }

  lemma TwoWords(words: map<int, A64.Word>, f: int)
    requires f in words && f + 4 in words
    ensures Body(words, f, f + 8) == [words[f], words[f + 4]]
  {
    assert Body(words, f + 8, f + 8) == [];
    assert Body(words, f + 4, f + 8) == [words[f + 4]] + [];
  }

  lemma RetEvents(lib: Library, mode: Mode, start: int, end: int, body: seq<A64.Word>, i: nat)
    requires i < |body| && body[i] == A64.RET
    ensures InsnEvents(lib, mode, start, end, body, i) == [Scanned]
  {
    hide LookBack;
  }

  lemma BlEvents(lib: Library, mode: Mode, start: int, end: int, body: seq<A64.Word>)
    requires |body| > 0 && body[0] == 0x9400_0002 && start + 8 !in lib.stubs
    ensures InsnEvents(lib, mode, start, end, body, 0) == [Scanned, Target(start + 8)]
  {
  }

  lemma AdrEvents(lib: Library, mode: Mode, start: int, end: int, body: seq<A64.Word>)
    requires |body| > 0 && body[0] == 0x1000_0080 && mode.followAddressTaken && start + 16 in Starts(lib)
    ensures InsnEvents(lib, mode, start, end, body, 0) == [Scanned, Taken(start + 16)]
  {
    hide Starts, LookBack;
  }

  lemma TwoEvents(lib: Library, mode: Mode, start: int, end: int, body: seq<A64.Word>)
    requires |body| == 2 && body[1] == A64.RET
    ensures EventsTo(lib, mode, start, end, body, 2) == InsnEvents(lib, mode, start, end, body, 0) + [Scanned]
  {
    RetEvents(lib, mode, start, end, body, 1);
    hide InsnEvents;
    assert EventsTo(lib, mode, start, end, body, 0) == [];
    assert EventsTo(lib, mode, start, end, body, 1) == InsnEvents(lib, mode, start, end, body, 0);
  }

  lemma CallerScan(lib: Library, mode: Mode, f: int)
    requires f in lib.words && f + 4 in lib.words && lib.words[f] == 0x9400_0002 && lib.words[f + 4] == A64.RET
    requires f + 8 !in lib.stubs
    ensures ScanEvents(lib, mode, f, 8) == [Scanned, Target(f + 8), Scanned]
  {
    TwoWords(lib.words, f);
    hide Body, InsnEvents, EventsTo;
    var body := [lib.words[f], lib.words[f + 4]];
    TwoEvents(lib, mode, f, f + 8, body);
    BlEvents(lib, mode, f, f + 8, body);
  }

  lemma TakerScan(lib: Library, mode: Mode, f: int)
    requires f in lib.words && f + 4 in lib.words && lib.words[f] == 0x1000_0080 && lib.words[f + 4] == A64.RET
    requires mode.followAddressTaken && f + 16 in Starts(lib)
    ensures ScanEvents(lib, mode, f, 8) == [Scanned, Taken(f + 16), Scanned]
  {
    TwoWords(lib.words, f);
    hide Body, InsnEvents, EventsTo, Starts;
    var body := [lib.words[f], lib.words[f + 4]];
    TwoEvents(lib, mode, f, f + 8, body);
    AdrEvents(lib, mode, f, f + 8, body);
  }

  lemma OneEdge(lib: Library, e: Event)
    requires Sorted(lib.bounds)
    ensures EventsEdges(lib, [Scanned, e, Scanned]) == EventEdge(lib, e)
  {
    hide EventsEdges, Resolve, EventsTally, Plus, Count;
    EmptyLog(lib, ZERO);
    LogOne(lib, [], Scanned);
    LogOne(lib, [Scanned], e);
    LogOne(lib, [Scanned, e], Scanned);
    assert [] + [Scanned] == [Scanned] && [Scanned] + [e] == [Scanned, e];
    assert [Scanned, e] + [Scanned] == [Scanned, e, Scanned];
  }

  lemma CrossedScans()
    ensures ScanEvents(CROSSED, TIER_C, 0, 8) == [Scanned, Taken(16), Scanned]
    ensures ScanEvents(CROSSED, TIER_C, 8, 8) == [Scanned, Target(16), Scanned]
    ensures ScanEvents(CROSSED, TIER_C, 16, 8) == [Scanned, Target(24), Scanned]
  {
    CrossedContaining();
    hide ScanEvents, Starts;
    TakerScan(CROSSED, TIER_C, 0);
    CallerScan(CROSSED, TIER_C, 8);
    CallerScan(CROSSED, TIER_C, 16);
  }

  lemma OneScanEdge(lib: Library, mode: Mode, f: int, length: int, e: Event)
    requires Sorted(lib.bounds) && ScanEvents(lib, mode, f, length) == [Scanned, e, Scanned]
    ensures ScanEdges(lib, mode, f, length) == EventEdge(lib, e)
  {
    hide ScanEvents, EventsEdges, EventEdge;
    OneEdge(lib, e);
  }

  lemma NoScanEdges(lib: Library, mode: Mode, f: int)
    requires Sorted(lib.bounds)
    ensures ScanEdges(lib, mode, f, 0) == {}
  {
    assert ScanEvents(lib, mode, f, 0) == [];
  }

  lemma CrossedEdges()
    ensures Sorted(CROSSED.bounds) && ScanEdges(CROSSED, TIER_C, 0, 8) == {16}
            && ScanEdges(CROSSED, TIER_C, 8, 8) == {16}
    ensures ScanEdges(CROSSED, TIER_C, 16, 8) == {24} && ScanEdges(CROSSED, TIER_C, 16, 0) == {}
  {
    CrossedContaining();
    CrossedScans();
    hide ScanEvents, Containing, Starts, TableLength, Synthesized, Sorted, ScanEdges;
    OneScanEdge(CROSSED, TIER_C, 0, 8, Taken(16));
    OneScanEdge(CROSSED, TIER_C, 8, 8, Target(16));
    OneScanEdge(CROSSED, TIER_C, 16, 8, Target(24));
    NoScanEdges(CROSSED, TIER_C, 16);
  }

  lemma Crossed()
    ensures Sorted(CROSSED.bounds) && Crossing(CROSSED, TIER_C, 0, 8, 16) && TwoExtents(CROSSED, 16)
  {
    CrossedContaining();
    CrossedScans();
    CrossedEdges();
    hide ScanEvents, ScanEdges, Containing, Starts, TableLength, Synthesized, Sorted;
  }

  lemma CalledFirst()
    ensures Sorted(CROSSED.bounds) && 24 in Found(CROSSED, TIER_C, [0, 8]).visited
  {
    Crossed();
    CrossedContaining();
    CrossedEdges();
    hide ScanEdges, Crossing, Containing, Starts, TableLength, Synthesized, Sorted, Found, EventsTally, SumTally, Plus,
         MayScan, TwoExtents;
    FoundTells(CROSSED, TIER_C, [0, 8]);
    OrderMattersExactly(CROSSED, TIER_C, 0, 8, 16);
    assert 24 in ScanEdges(CROSSED, TIER_C, 16, 8);
  }

  lemma TakenFirst()
    ensures Sorted(CROSSED.bounds) && 24 !in Found(CROSSED, TIER_C, [8, 0]).visited
  {
    Crossed();
    CrossedContaining();
    CrossedEdges();
    hide ScanEdges, Crossing, Containing, Starts, TableLength, Synthesized, Sorted, Found, EventsTally, SumTally, Plus,
         TwoExtents;
    FoundTells(CROSSED, TIER_C, [8, 0]);
    OrderMattersExactly(CROSSED, TIER_C, 0, 8, 16);
    var s := Found(CROSSED, TIER_C, [8, 0]);
    assert 0 in s.used ==> MayScan(CROSSED, TIER_C, 0, s.used[0]);
    assert 8 in s.used ==> MayScan(CROSSED, TIER_C, 8, s.used[8]);
    assert IsClosedUnder(CROSSED, TIER_C, s.used, [8, 0], {0, 8, 16});
  }

  /**
   * The same two roots in the two orders: the third function is scanned as far as its RET and calls the
   * fourth, or is not scanned at all and the fourth is never found.
   */
  lemma OrderCanMatter()
    ensures Sorted(CROSSED.bounds)
    ensures var s, t := Found(CROSSED, TIER_C, [0, 8]), Found(CROSSED, TIER_C, [8, 0]);
            && 16 in s.used && s.used[16] == 8 && 24 in s.visited
            && 16 in t.used && t.used[16] == 0 && 24 !in t.visited
  {
    Crossed();
    CrossedContaining();
    CalledFirst();
    TakenFirst();
    hide Crossing, TwoExtents, TableLength, Synthesized, Found, Sorted;
    OrderMattersExactly(CROSSED, TIER_C, 0, 8, 16);
  }
}
