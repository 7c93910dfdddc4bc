/** The closure as a run over values: what a scan adds to the worklist, and what a whole run comes to. */
module Worklist {
  import opened Wrappers
  import A64
  import opened Library

  /** What the closure holds: `order` lists the functions scanned so far and `used` how much of each. */
  datatype Search = Search(visited: set<int>, work: seq<int>, synth: map<int, int>, tally: Tally, taken: set<int>,
                           order: seq<int>, used: Extents)

  const NOTHING := Search({}, [], map[], ZERO, {}, [], map[])

  // ---------------------------------------------------------------- the run

  function Visit(s: Search, f: int): Search
  {
    if f in s.visited then s else s.(visited := s.visited + {f}, work := s.work + [f])
  }

  function Reached(lib: Library, s: Search, e: Event): Search
    requires Sorted(lib.bounds)
  {
    var s := s.(tally := Count(lib, s.tally, e));
    match e
    case Target(t) =>
      if Containing(lib, t).Some? then Visit(s, Containing(lib, t).value)
      else if Synthesized(lib, t).Some? then Visit(s.(synth := s.synth[t := Synthesized(lib, t).value]), t)
      else s
    case Taken(t) => Visit(s.(taken := s.taken + {t}), t)
    case _ => s
  }

  function ReachedAll(lib: Library, s: Search, es: seq<Event>): Search
    requires Sorted(lib.bounds)
  {
    if es == [] then s else Reached(lib, ReachedAll(lib, s, es[..|es| - 1]), es[|es| - 1])
  }

  function Started(lib: Library, roots: seq<int>): Search
    requires Sorted(lib.bounds)
  {
    ReachedAll(lib, NOTHING, RootEvents(roots))
  }

  /** A guess made at a call is used; otherwise the tables are asked. */
  function LengthNow(lib: Library, s: Search, f: int): int
    requires Sorted(lib.bounds)
  {
    if f in s.synth then s.synth[f] else TableLength(lib, f)
  }

  /** The function last put on the worklist taken off it, to be scanned. */
  function Popped(lib: Library, s: Search): Search
    requires Sorted(lib.bounds) && s.work != []
  {
    var f := s.work[|s.work| - 1];
    s.(work := s.work[..|s.work| - 1], order := s.order + [f], used := s.used[f := LengthNow(lib, s, f)])
  }

  function Turn(lib: Library, mode: Mode, s: Search): Search
    requires Sorted(lib.bounds) && s.work != []
  {
    var f := s.work[|s.work| - 1];
    ReachedAll(lib, Popped(lib, s), ScanEvents(lib, mode, f, LengthNow(lib, s, f)))
  }

  function Turns(lib: Library, mode: Mode, s: Search, n: nat): Search
    requires Sorted(lib.bounds)
  {
    if n == 0 then s
    else
      var before := Turns(lib, mode, s, n - 1);
      if before.work == [] then before else Turn(lib, mode, before)
  }

  function Universe(lib: Library): set<int>
  {
    Starts(lib) + lib.words.Keys
  }

  /** The whole run from the given roots. */
  function Found(lib: Library, mode: Mode, roots: seq<int>): Search
    requires Sorted(lib.bounds)
  {
    Turns(lib, mode, Started(lib, roots), |Universe(lib)|)
  }

  // ---------------------------------------------------------------- several events

  lemma ReachedOne(lib: Library, s: Search, e: Event)
    requires Sorted(lib.bounds)
    ensures ReachedAll(lib, s, []) == s && ReachedAll(lib, s, [e]) == Reached(lib, s, e)
  {
    hide Reached;
    assert [e][..0] == [];
  }

  lemma {:induction false} ReachedAppend(lib: Library, s: Search, a: seq<Event>, b: seq<Event>)
    requires Sorted(lib.bounds)
    ensures ReachedAll(lib, s, a + b) == ReachedAll(lib, ReachedAll(lib, s, a), b)
    decreases |b|
  {
    hide Reached;
    if b == [] {
      assert a + b == a;
    } else {
      assert (a + b)[..|a + b| - 1] == a + b[..|b| - 1];
      ReachedAppend(lib, s, a, b[..|b| - 1]);
    }
  }

  /** What one event, or several, add up to. */
  ghost predicate Adds(lib: Library, s: Search, es: seq<Event>, t: Search)
    requires Sorted(lib.bounds)
  {
    && t.visited == s.visited + EventsEdges(lib, es)
    && t.tally == Plus(s.tally, EventsTally(lib, es))
    && (forall a :: a in t.taken <==> a in s.taken || Taken(a) in es)
    && t.order == s.order && t.used == s.used
  }

  lemma ReachedEdge(lib: Library, s: Search, e: Event)
    requires Sorted(lib.bounds)
    ensures Reached(lib, s, e).visited == s.visited + EventEdge(lib, e)
    ensures Reached(lib, s, e).tally == Count(lib, s.tally, e)
    ensures Reached(lib, s, e).taken == if e.Taken? then s.taken + {e.start} else s.taken
    ensures Reached(lib, s, e).order == s.order && Reached(lib, s, e).used == s.used
  {
    hide Containing, Synthesized, Count;
  }

  lemma LogOne(lib: Library, log: seq<Event>, e: Event)
    requires Sorted(lib.bounds)
    ensures EventsEdges(lib, log + [e]) == EventsEdges(lib, log) + EventEdge(lib, e)
    ensures EventsTally(lib, log + [e]) == Count(lib, EventsTally(lib, log), e)
  {
    assert (log + [e])[..|log|] == log;
    hide EventEdge, Count;
    assert forall x :: x in log + [e] <==> x in log || x == e;
  }

  lemma {:induction false} ReachedAdds(lib: Library, s: Search, es: seq<Event>)
    requires Sorted(lib.bounds)
    ensures Adds(lib, s, es, ReachedAll(lib, s, es))
    decreases |es|
  {
    hide Reached, Count, Plus, EventEdge, EventsEdges, EventsTally;
    if es == [] {
      EmptyLog(lib, s.tally);
    } else {
      var init, last := es[..|es| - 1], es[|es| - 1];
      assert es == init + [last];
      ReachedAdds(lib, s, init);
      ReachedEdge(lib, ReachedAll(lib, s, init), last);
      LogOne(lib, init, last);
      CountPlus(lib, s.tally, EventsTally(lib, init), last);
    }
  }

  lemma EmptyLog(lib: Library, t: Tally)
    requires Sorted(lib.bounds)
    ensures EventsEdges(lib, []) == {} && EventsTally(lib, []) == ZERO && Plus(t, ZERO) == t
  {
  }

  // ---------------------------------------------------------------- what every step keeps

  /** Every visited function is waiting or has been scanned, once. */
  ghost predicate Queued(s: Search)
  {
    multiset(s.order) + multiset(s.work) == multiset(s.visited)
  }

  /** The guessed extents are memoised correctly, and every visited function has one or is in the tables. */
  ghost predicate Known(lib: Library, s: Search)
    requires Sorted(lib.bounds)
  {
    && (forall t :: t in s.synth ==> Containing(lib, t).None? && Synthesized(lib, t) == Some(s.synth[t]))
    && (forall f :: f in s.visited ==> f in Starts(lib) || f in s.synth)
  }

  /** Without address-taken edges a start that lies in no function is visited only by a call. */
  ghost predicate Called(lib: Library, mode: Mode, s: Search)
    requires Sorted(lib.bounds)
  {
    mode.followAddressTaken || forall f :: f in s.visited ==> Containing(lib, f).Some? || f in s.synth
  }

  ghost predicate TakenAreStarts(lib: Library, mode: Mode, es: seq<Event>)
  {
    forall e :: e in es && e.Taken? ==> mode.followAddressTaken && e.start in Starts(lib)
  }

  lemma VisitQueued(s: Search, f: int)
    requires Queued(s)
    ensures Queued(Visit(s, f))
  {
    if f !in s.visited {
      assert multiset(s.visited + {f}) == multiset(s.visited) + multiset{f};
    }
  }

  lemma ReachedKeeps(lib: Library, mode: Mode, s: Search, e: Event)
    requires Sorted(lib.bounds) && TakenAreStarts(lib, mode, [e])
    ensures Queued(s) ==> Queued(Reached(lib, s, e))
    ensures Known(lib, s) ==> Known(lib, Reached(lib, s, e))
    ensures Called(lib, mode, s) ==> Called(lib, mode, Reached(lib, s, e))
  {
    hide Containing, Synthesized, Starts, Count, Queued;
    assert e in [e];
    if Queued(s) {
      ReachedQueued(lib, s, e);
    }
    if e.Target? && Containing(lib, e.target).Some? {
      ContainingIdempotent(lib, e.target);
      FoundIsStart(lib, e.target);
    }
  }

  lemma ReachedQueued(lib: Library, s: Search, e: Event)
    requires Sorted(lib.bounds) && Queued(s)
    ensures Queued(Reached(lib, s, e))
  {
    hide Containing, Synthesized, Count, Visit;
    var t := s.(tally := Count(lib, s.tally, e));
    match e
    case Target(a) =>
      if Containing(lib, a).Some? {
        VisitQueued(t, Containing(lib, a).value);
      } else if Synthesized(lib, a).Some? {
        VisitQueued(t.(synth := t.synth[a := Synthesized(lib, a).value]), a);
      }
    case Taken(a) => VisitQueued(t.(taken := t.taken + {a}), a);
    case _ =>
  }

  lemma {:induction false} ReachedAllKeeps(lib: Library, mode: Mode, s: Search, es: seq<Event>)
    requires Sorted(lib.bounds) && TakenAreStarts(lib, mode, es)
    ensures Queued(s) ==> Queued(ReachedAll(lib, s, es))
    ensures Known(lib, s) ==> Known(lib, ReachedAll(lib, s, es))
    ensures Called(lib, mode, s) ==> Called(lib, mode, ReachedAll(lib, s, es))
    decreases |es|
  {
    hide Reached, Queued, Known, Called, Starts;
    if es != [] {
      assert es[|es| - 1] in es;
      ReachedAllKeeps(lib, mode, s, es[..|es| - 1]);
      ReachedKeeps(lib, mode, ReachedAll(lib, s, es[..|es| - 1]), es[|es| - 1]);
    }
  }

  lemma InsnTakenAreStarts(lib: Library, mode: Mode, start: int, end: int, body: seq<A64.Word>, i: nat)
    requires i < |body|
    ensures TakenAreStarts(lib, mode, InsnEvents(lib, mode, start, end, body, i))
  {
    hide Starts;
    assert forall e :: e in BranchEvents(lib, mode, start, end, start + 4 * i, body[i]) ==> !e.Taken?;
  }

  lemma {:induction false} TakenAreStartsTo(lib: Library, mode: Mode, start: int, end: int, body: seq<A64.Word>, n: nat)
    requires n <= |body|
    ensures TakenAreStarts(lib, mode, EventsTo(lib, mode, start, end, body, n))
  {
    hide InsnEvents, Starts;
    if n > 0 {
      TakenAreStartsTo(lib, mode, start, end, body, n - 1);
      InsnTakenAreStarts(lib, mode, start, end, body, n - 1);
    }
  }

  lemma ScanTakenAreStarts(lib: Library, mode: Mode, f: int, length: int)
    ensures TakenAreStarts(lib, mode, ScanEvents(lib, mode, f, length))
  {
    hide EventsTo, TakenAreStarts, Body;
    var body := Body(lib.words, f, f + length);
    TakenAreStartsTo(lib, mode, f, f + length, body, |body|);
  }

  // ---------------------------------------------------------------- a turn

  /** Everything met so far: the roots, then the scans in their order. */
  function Log(lib: Library, mode: Mode, roots: seq<int>, s: Search): seq<Event>
  {
    RootEvents(roots) + AllEvents(lib, mode, s.used, s.order)
  }

  /** The worklist holds exactly what the events met lead to and add up to. */
  ghost predicate Accounted(lib: Library, log: seq<Event>, s: Search)
    requires Sorted(lib.bounds)
  {
    && s.visited == EventsEdges(lib, log) && s.tally == EventsTally(lib, log)
    && forall a :: a in s.taken <==> Taken(a) in log
  }

  /** Each function scanned, and no other, was scanned with an extent it has. */
  ghost predicate Measured(lib: Library, mode: Mode, s: Search)
    requires Sorted(lib.bounds)
  {
    && (forall f :: f in s.used <==> f in s.order)
    && forall f :: f in s.used ==> MayScan(lib, mode, f, s.used[f])
  }

  /** Nothing is visited that some set closed under the scans made leaves out. */
  ghost predicate Needed(lib: Library, mode: Mode, roots: seq<int>, s: Search)
    requires Sorted(lib.bounds)
  {
    forall c :: IsClosedUnder(lib, mode, s.used, roots, c) ==> s.visited <= c
  }

  ghost predicate Good(lib: Library, mode: Mode, roots: seq<int>, s: Search)
    requires Sorted(lib.bounds)
  {
    && Queued(s) && Known(lib, s) && Called(lib, mode, s) && Measured(lib, mode, s)
    && Accounted(lib, Log(lib, mode, roots, s), s) && Needed(lib, mode, roots, s)
  }

  lemma NextUnscanned(s: Search)
    requires Queued(s) && s.work != []
    ensures var f := s.work[|s.work| - 1];
            f in s.visited && f !in s.order &&
              multiset(s.order + [f]) + multiset(s.work[..|s.work| - 1]) == multiset(s.visited)
  {
    var f := s.work[|s.work| - 1];
    assert s.work == s.work[..|s.work| - 1] + [f];
    assert f in multiset(s.visited);
    assert multiset(s.visited)[f] == 1;
  }

  lemma QueueSize(s: Search)
    requires Queued(s)
    ensures |s.order| + |s.work| == |s.visited|
  {
    assert |multiset(s.order) + multiset(s.work)| == |s.order| + |s.work|;
    assert |multiset(s.visited)| == |s.visited|;
  }

  /** A start that lies in a function lies in its own. */
  lemma StartContained(lib: Library, f: int)
    requires Sorted(lib.bounds) && f in Starts(lib) && Containing(lib, f).Some?
    ensures Containing(lib, f) == Some(f)
  {
    var k :| 0 <= k < |lib.bounds| && lib.bounds[k].start == f;
    var i := BisectRight(lib.bounds, f);
    assert k < i;
  }

  lemma MayScanNow(lib: Library, mode: Mode, s: Search, f: int)
    requires Sorted(lib.bounds) && Known(lib, s) && Called(lib, mode, s) && f in s.visited
    ensures MayScan(lib, mode, f, LengthNow(lib, s, f))
  {
    hide Containing, Synthesized, Starts, TableLength;
    if f in Starts(lib) && Containing(lib, f).Some? {
      StartContained(lib, f);
    }
  }

  /** Scanning one more function adds its events to the log. */
  lemma PoppedLog(lib: Library, mode: Mode, roots: seq<int>, s: Search)
    requires Sorted(lib.bounds) && s.work != [] && s.work[|s.work| - 1] !in s.order
    ensures var f := s.work[|s.work| - 1];
            Log(lib, mode, roots, Popped(lib, s)) ==
              Log(lib, mode, roots, s) + ScanEvents(lib, mode, f, LengthNow(lib, s, f))
  {
    hide ScanEvents, LengthNow, RootEvents;
    var f, p := s.work[|s.work| - 1], Popped(lib, s);
    assert p.order[..|p.order| - 1] == s.order;
    AllEventsLocal(lib, mode, s.used, p.used, s.order);
  }

  lemma AccountedMore(lib: Library, log: seq<Event>, s: Search, es: seq<Event>, t: Search)
    requires Sorted(lib.bounds) && Accounted(lib, log, s) && Adds(lib, s, es, t)
    ensures Accounted(lib, log + es, t)
  {
    EdgesAppend(lib, log, es);
    TallyAppend(lib, log, es);
    hide EventsEdges, EventsTally, Plus;
  }

  lemma NeededMore(lib: Library, mode: Mode, roots: seq<int>, s: Search, t: Search, f: int, length: int)
    requires Sorted(lib.bounds) && Needed(lib, mode, roots, s) && f in s.visited && f !in s.used
    requires t.used == s.used[f := length] && t.visited == s.visited + ScanEdges(lib, mode, f, length)
    ensures Needed(lib, mode, roots, t)
  {
    hide ScanEdges, Resolve;
    forall c | IsClosedUnder(lib, mode, t.used, roots, c)
      ensures t.visited <= c
    {
      assert forall g :: g in s.used ==> g in t.used && t.used[g] == s.used[g];
      assert IsClosedUnder(lib, mode, s.used, roots, c);
      assert f in c && t.used[f] == length;
    }
  }

  lemma TurnKeeps(lib: Library, mode: Mode, roots: seq<int>, s: Search)
    requires Sorted(lib.bounds) && Good(lib, mode, roots, s) && s.work != []
    ensures Good(lib, mode, roots, Turn(lib, mode, s))
    ensures Turn(lib, mode, s).order == Popped(lib, s).order && Turn(lib, mode, s).used == Popped(lib, s).used
  {
    hide Known, Called, Measured, Accounted, Needed, ScanEvents, LengthNow, ReachedAll, Queued, MayScan, Log,
         EventsEdges, EventsTally, Plus;
    var f, p, t := s.work[|s.work| - 1], Popped(lib, s), Turn(lib, mode, s);
    var es := ScanEvents(lib, mode, f, LengthNow(lib, s, f));
    NextUnscanned(s);
    PoppedKeeps(lib, mode, s);
    ScanTakenAreStarts(lib, mode, f, LengthNow(lib, s, f));
    ReachedAllKeeps(lib, mode, p, es);
    ReachedAdds(lib, p, es);
    MeasuredSame(lib, mode, p, t);
    PoppedLog(lib, mode, roots, s);
    AccountedSame(lib, Log(lib, mode, roots, s), s, p);
    AccountedMore(lib, Log(lib, mode, roots, s), p, es, t);
    LogSame(lib, mode, roots, p, t);
    NotUsed(lib, mode, s, f);
    NeededMore(lib, mode, roots, s, t, f, LengthNow(lib, s, f));
  }

  lemma PoppedKeeps(lib: Library, mode: Mode, s: Search)
    requires Sorted(lib.bounds) && s.work != []
    requires Queued(s) && Known(lib, s) && Called(lib, mode, s) && Measured(lib, mode, s)
    ensures Queued(Popped(lib, s)) && Known(lib, Popped(lib, s)) && Called(lib, mode, Popped(lib, s))
    ensures Measured(lib, mode, Popped(lib, s))
  {
    hide Containing, Synthesized, Starts, LengthNow, MayScan;
    NextUnscanned(s);
    MayScanNow(lib, mode, s, s.work[|s.work| - 1]);
  }

  lemma MeasuredSame(lib: Library, mode: Mode, s: Search, t: Search)
    requires Sorted(lib.bounds) && Measured(lib, mode, s) && t.order == s.order && t.used == s.used
    ensures Measured(lib, mode, t)
  {
  }

  lemma AccountedSame(lib: Library, log: seq<Event>, s: Search, t: Search)
    requires Sorted(lib.bounds) && Accounted(lib, log, s)
    requires t.visited == s.visited && t.tally == s.tally && t.taken == s.taken
    ensures Accounted(lib, log, t)
  {
  }

  lemma LogSame(lib: Library, mode: Mode, roots: seq<int>, s: Search, t: Search)
    requires t.order == s.order && t.used == s.used
    ensures Log(lib, mode, roots, t) == Log(lib, mode, roots, s)
  {
  }

  lemma NotUsed(lib: Library, mode: Mode, s: Search, f: int)
    requires Sorted(lib.bounds) && Measured(lib, mode, s) && f !in s.order
    ensures f !in s.used
  {
  }

  // ---------------------------------------------------------------- the whole run

  lemma RootsWithin(lib: Library, mode: Mode, ext: Extents, roots: seq<int>, c: set<int>)
    requires Sorted(lib.bounds) && IsClosedUnder(lib, mode, ext, roots, c)
    ensures EventsEdges(lib, RootEvents(roots)) <= c
  {
    var es := RootEvents(roots);
    hide ScanEdges, Resolve;
    forall f | f in EventsEdges(lib, es)
      ensures f in c
    {
      var e :| e in es && f in EventEdge(lib, e);
      var k :| 0 <= k < |es| && es[k] == e;
      assert e == Target(roots[k]);
    }
  }

  lemma RootsTakeNothing(lib: Library, mode: Mode, roots: seq<int>)
    ensures TakenAreStarts(lib, mode, RootEvents(roots))
  {
    assert forall e :: e in RootEvents(roots) ==> e.Target?;
  }

  lemma StartedGood(lib: Library, mode: Mode, roots: seq<int>)
    requires Sorted(lib.bounds)
    ensures Good(lib, mode, roots, Started(lib, roots)) && Started(lib, roots).order == []
  {
    var es := RootEvents(roots);
    hide EventsEdges, EventsTally, ReachedAll, Plus, IsClosedUnder, RootEvents;
    RootsTakeNothing(lib, mode, roots);
    ReachedAllKeeps(lib, mode, NOTHING, es);
    ReachedAdds(lib, NOTHING, es);
    EmptyLog(lib, ZERO);
    PlusAssociative(EventsTally(lib, es), ZERO, ZERO);
    assert Log(lib, mode, roots, Started(lib, roots)) == es;
    forall c | IsClosedUnder(lib, mode, map[], roots, c)
      ensures EventsEdges(lib, es) <= c
    {
      RootsWithin(lib, mode, map[], roots, c);
    }
  }

  lemma {:induction false} TurnsGood(lib: Library, mode: Mode, roots: seq<int>, n: nat)
    requires Sorted(lib.bounds)
    ensures var s := Turns(lib, mode, Started(lib, roots), n);
            Good(lib, mode, roots, s) && (s.work != [] ==> |s.order| == n)
  {
    hide Good, Started, Turn;
    StartedGood(lib, mode, roots);
    if n > 0 {
      TurnsGood(lib, mode, roots, n - 1);
      var s := Turns(lib, mode, Started(lib, roots), n - 1);
      if s.work != [] {
        TurnKeeps(lib, mode, roots, s);
      }
    }
  }

  lemma VisitedBounded(lib: Library, s: Search)
    requires Sorted(lib.bounds) && Known(lib, s)
    ensures s.visited <= Universe(lib)
  {
    hide Containing, Starts, SynthesizeFrom;
    forall f | f in s.visited
      ensures f in Starts(lib) || f in lib.words
    {
      assert f in s.synth ==> Synthesized(lib, f).Some?;
    }
  }

  /** No run takes more turns than there are addresses that could be visited. */
  lemma Ends(lib: Library, mode: Mode, roots: seq<int>)
    requires Sorted(lib.bounds)
    ensures Found(lib, mode, roots).work == []
  {
    hide Turns, Started, Measured, Accounted, Needed, Called, Known, Universe;
    var s := Found(lib, mode, roots);
    TurnsGood(lib, mode, roots, |Universe(lib)|);
    QueueSize(s);
    VisitedBounded(lib, s);
    SubsetSize(s.visited, Universe(lib));
  }

  lemma {:induction false} ScannedEdges(lib: Library, mode: Mode, ext: Extents, order: seq<int>, f: int)
    requires Sorted(lib.bounds) && f in order
    ensures ScanEdges(lib, mode, f, LengthIn(ext, f)) <= EventsEdges(lib, AllEvents(lib, mode, ext, order))
    decreases |order|
  {
    hide EventsEdges, ScanEvents, LengthIn;
    var init, last := order[..|order| - 1], order[|order| - 1];
    EdgesAppend(lib, AllEvents(lib, mode, ext, init), ScanEvents(lib, mode, last, LengthIn(ext, last)));
    if f != last {
      assert order == init + [last];
      ScannedEdges(lib, mode, ext, init, f);
    }
  }

  lemma EdgeOfOne(lib: Library, es: seq<Event>, k: nat, f: int)
    requires Sorted(lib.bounds) && k < |es| && f in EventEdge(lib, es[k])
    ensures f in EventsEdges(lib, es)
  {
    hide EventEdge;
    assert es[k] in es;
  }

  lemma RootsVisited(lib: Library, roots: seq<int>)
    requires Sorted(lib.bounds)
    ensures forall r :: r in roots && Resolve(lib, r).Some? ==>
              Resolve(lib, r).value in EventsEdges(lib, RootEvents(roots))
  {
    var es := RootEvents(roots);
    hide Resolve, EventsEdges;
    forall r | r in roots && Resolve(lib, r).Some?
      ensures Resolve(lib, r).value in EventsEdges(lib, es)
    {
      var k :| 0 <= k < |roots| && roots[k] == r;
      EdgeOfOne(lib, es, k, Resolve(lib, r).value);
    }
  }

  /** With nothing left to scan, what is visited is closed under the scans made. */
  lemma FinishedClosed(lib: Library, mode: Mode, roots: seq<int>, s: Search)
    requires Sorted(lib.bounds) && Measured(lib, mode, s) && Accounted(lib, Log(lib, mode, roots, s), s)
    ensures IsClosedUnder(lib, mode, s.used, roots, s.visited)
  {
    RootsVisited(lib, roots);
    EdgesAppend(lib, RootEvents(roots), AllEvents(lib, mode, s.used, s.order));
    hide EventsEdges, ScanEdges, Resolve, AllEvents, RootEvents, MayScan, EventsTally;
    forall f | f in s.used
      ensures ScanEdges(lib, mode, f, s.used[f]) <= s.visited
    {
      ScannedEdges(lib, mode, s.used, s.order, f);
    }
  }

  lemma QueueEmpty(s: Search)
    requires Queued(s) && s.work == []
    ensures multiset(s.order) == multiset(s.visited) && forall f :: f in s.order <==> f in s.visited
  {
    assert multiset(s.order) == multiset(s.visited);
    assert forall f :: f in s.order <==> f in multiset(s.order);
  }

  lemma UsedAreVisited(lib: Library, mode: Mode, s: Search)
    requires Sorted(lib.bounds) && Measured(lib, mode, s) && forall f :: f in s.order <==> f in s.visited
    ensures s.used.Keys == s.visited
  {
    hide MayScan;
    forall f
      ensures f in s.used <==> f in s.visited
    {
      assert f in s.used <==> f in s.order;
    }
  }

  /**
   * Every run ends. It has scanned each function it found once, with an extent that function has, and
   * found the least set that holds the resolved roots and that those scans do not lead out of; the
   * counters are the sums over the roots and the scans.
   */
  lemma FoundTells(lib: Library, mode: Mode, roots: seq<int>)
    requires Sorted(lib.bounds)
    ensures var s := Found(lib, mode, roots);
            && s.work == [] && multiset(s.order) == multiset(s.visited) && s.used.Keys == s.visited
            && (forall f :: f in s.used ==> MayScan(lib, mode, f, s.used[f]))
            && IsLeastUnder(lib, mode, s.used, roots, s.visited)
            && s.tally == Plus(EventsTally(lib, RootEvents(roots)), SumTally(lib, mode, s.used, s.order))
  {
    hide Turns, Known, Called, EventsEdges, EventsTally, AllEvents, MayScan, SumTally, Plus, RootEvents, IsClosedUnder,
         Started;
    var s := Found(lib, mode, roots);
    TurnsGood(lib, mode, roots, |Universe(lib)|);
    Ends(lib, mode, roots);
    QueueEmpty(s);
    UsedAreVisited(lib, mode, s);
    FinishedClosed(lib, mode, roots, s);
    TallyAppend(lib, RootEvents(roots), AllEvents(lib, mode, s.used, s.order));
    TallyIsSum(lib, mode, s.used, s.order);
  }

  /** The run finds the least closed set whenever address-taken edges are not followed or no start has two extents. */
  lemma FoundLeastClosed(lib: Library, mode: Mode, roots: seq<int>)
    requires Sorted(lib.bounds) && (mode.followAddressTaken ==> Unambiguous(lib))
    ensures IsLeastClosed(lib, mode, roots, Found(lib, mode, roots).visited)
    ensures var s := Found(lib, mode, roots); s.used == map f | f in s.visited :: Extent(lib, f)
  {
    var s := Found(lib, mode, roots);
    FoundTells(lib, mode, roots);
    hide Found, IsLeastUnder, IsLeastClosed, Unambiguous, MayScan, Extent;
    forall f | f in s.used
      ensures s.used[f] == Extent(lib, f)
    {
      OneExtent(lib, mode, f, s.used[f]);
    }
    LeastUnderOne(lib, mode, s.used, roots, s.visited);
  }

  // ---------------------------------------------------------------- the order does not matter

  lemma SameRoots(lib: Library, mode: Mode, a: seq<int>, b: seq<int>, s: set<int>)
    requires Sorted(lib.bounds) && multiset(a) == multiset(b) && IsLeastClosed(lib, mode, a, s)
    ensures IsLeastClosed(lib, mode, b, s)
  {
    hide Resolve, Edges;
    assert forall r :: r in a <==> r in multiset(a);
    assert forall r :: r in b <==> r in multiset(b);
    assert forall c :: IsClosed(lib, mode, a, c) <==> IsClosed(lib, mode, b, c);
  }

  lemma RootEventsAppend(a: seq<int>, b: seq<int>)
    ensures RootEvents(a + b) == RootEvents(a) + RootEvents(b)
  {
  }

  lemma RootsTallyAppend(lib: Library, a: seq<int>, b: seq<int>)
    requires Sorted(lib.bounds)
    ensures EventsTally(lib, RootEvents(a + b)) ==
            Plus(EventsTally(lib, RootEvents(a)), EventsTally(lib, RootEvents(b)))
  {
    RootEventsAppend(a, b);
    TallyAppend(lib, RootEvents(a), RootEvents(b));
  }

  lemma {:induction false} RootsTallyOrder(lib: Library, a: seq<int>, b: seq<int>)
    requires Sorted(lib.bounds) && multiset(a) == multiset(b)
    ensures EventsTally(lib, RootEvents(a)) == EventsTally(lib, RootEvents(b))
    decreases |a|
  {
    hide EventsTally, RootEvents, Plus;
    if a == [] {
      assert |multiset(b)| == |b|;
    } else {
      var f := a[|a| - 1];
      var k := LastPicked(a, b);
      var init, left, right := a[..|a| - 1], b[..k], b[k + 1..];
      RootsTallyOrder(lib, init, left + right);
      assert a == init + [f];
      RootsTallyAppend(lib, init, [f]);
      RootsTallyAppend(lib, left + [f], right);
      RootsTallyAppend(lib, left, [f]);
      RootsTallyAppend(lib, left, right);
      var x, y, z := EventsTally(lib, RootEvents(left)), EventsTally(lib, RootEvents([f])),
        EventsTally(lib, RootEvents(right));
      PlusAssociative(x, y, z);
      PlusAssociative(y, z, ZERO);
      PlusAssociative(x, z, y);
    }
  }

  lemma {:induction false} InAllEvents(lib: Library, mode: Mode, ext: Extents, fs: seq<int>, e: Event)
    ensures e in AllEvents(lib, mode, ext, fs) <==>
            exists f :: f in fs && e in ScanEvents(lib, mode, f, LengthIn(ext, f))
    decreases |fs|
  {
    hide ScanEvents, LengthIn;
    if fs != [] {
      InAllEvents(lib, mode, ext, fs[..|fs| - 1], e);
      assert fs == fs[..|fs| - 1] + [fs[|fs| - 1]];
    }
  }

  lemma TakenBy(lib: Library, mode: Mode, roots: seq<int>, a: int)
    requires Sorted(lib.bounds)
    ensures var s := Found(lib, mode, roots);
            a in s.taken <==> exists f :: f in s.visited && Taken(a) in ScanEvents(lib, mode, f, LengthIn(s.used, f))
  {
    hide Turns, Known, Called, EventsEdges, EventsTally, AllEvents, Measured, Needed, Started, ScanEvents, LengthIn;
    var s := Found(lib, mode, roots);
    TurnsGood(lib, mode, roots, |Universe(lib)|);
    Ends(lib, mode, roots);
    QueueEmpty(s);
    InAllEvents(lib, mode, s.used, s.order, Taken(a));
    assert Taken(a) !in RootEvents(roots);
  }

  /** Then every order of the roots finds the same functions, scans as much of each, and counts the same. */
  lemma OrderIndependent(lib: Library, mode: Mode, a: seq<int>, b: seq<int>)
    requires Sorted(lib.bounds) && multiset(a) == multiset(b)
    requires mode.followAddressTaken ==> Unambiguous(lib)
    ensures var s, t := Found(lib, mode, a), Found(lib, mode, b);
            s.visited == t.visited && s.used == t.used && s.tally == t.tally && s.taken == t.taken
  {
    var s, t := Found(lib, mode, a), Found(lib, mode, b);
    hide Found, IsLeastUnder, Unambiguous, MayScan, Extent, Plus, EventsTally, SumTally, RootEvents, ScanEvents,
         LengthIn, IsLeastClosed;
    FoundTells(lib, mode, a);
    FoundTells(lib, mode, b);
    FoundLeastClosed(lib, mode, a);
    FoundLeastClosed(lib, mode, b);
    SameRoots(lib, mode, a, b, s.visited);
    LeastClosedUnique(lib, mode, b, s.visited, t.visited);
    RootsTallyOrder(lib, a, b);
    SumOrderIrrelevant(lib, mode, s.used, s.order, t.order);
    forall x
      ensures x in s.taken <==> x in t.taken
    {
      TakenBy(lib, mode, a, x);
      TakenBy(lib, mode, b, x);
    }
  }
}
