/**
 * Tagged-address sites claimed and dropped between runs, by any number of threads running jits on one cache.
 * Every step below is one atomic access, one call into dynarmic, or one return.
 */
module ShimSites {
  import opened Wrappers

  /** A translated block: the guest locations in it, and those whose address mask was emitted. */
  datatype Block = Block(locations: set<nat>, masked: set<nat>)

  /** Where a thread is in od_jit_run. */
  datatype Phase =
      Idle
    | Checked
    | Running
    | Left
    | Noted(noted: nat)
    | Compared(noted: nat, from: nat)
    | Claimed(from: nat, to: nat)
    | Dropping(from: nat, to: nat, pcs: seq<nat>, done: nat)

  /**
   * `sites` are the noted locations in order, and `seen` how many of them the cache has claimed; `claims`
   * records every range won. Each thread runs a jit of its own, and `executing` are those with their flag set.
   */
  datatype State = State(sites: seq<nat>, seen: nat, threads: map<nat, Phase>, blocks: set<Block>,
                         claims: seq<(nat, nat)>, executing: set<nat>)

  datatype Event =
      Call(t: nat)
    | Enter(t: nat)
    | Note(t: nat, location: nat)
    | Translate(t: nat, locations: set<nat>)
    | Evict(block: Block)
    | Leave(t: nat)
    | LoadNoted(t: nat, value: nat)
    | LoadSeen(t: nat, value: nat)
    | CompareExchange(t: nat)
    | FetchSites(t: nat)
    | DropOne(t: nat)
    | Return(t: nat)
    | Throw(t: nat)

  /** The guest address of a location. */
  type Pcs = nat -> nat

  function PhaseOf(s: State, t: nat): Phase
  {
    if t in s.threads then s.threads[t] else Idle
  }

  /**
   * A load may return a value that is no longer the latest, never one not yet stored. A call comes from
   * outside, or from a callback while the jit runs.
   */
  ghost predicate Enabled(s: State, e: Event)
  {
    match e
    case Call(t) => PhaseOf(s, t).Idle? || PhaseOf(s, t).Running?
    case Enter(t) => PhaseOf(s, t).Checked?
    case Note(t, _) => PhaseOf(s, t).Running?
    case Translate(t, _) => PhaseOf(s, t).Running?
    case Evict(b) => b in s.blocks
    case Leave(t) => PhaseOf(s, t).Running?
    case LoadNoted(t, n) => PhaseOf(s, t).Left? && n <= |s.sites|
    case LoadSeen(t, n) => PhaseOf(s, t).Noted? && n <= s.seen
    case CompareExchange(t) => PhaseOf(s, t).Compared?
    case FetchSites(t) => PhaseOf(s, t).Claimed?
    case DropOne(t) => PhaseOf(s, t).Dropping? && PhaseOf(s, t).done < |PhaseOf(s, t).pcs|
    case Return(t) => PhaseOf(s, t).Dropping? && PhaseOf(s, t).done == |PhaseOf(s, t).pcs|
    case Throw(t) => !PhaseOf(s, t).Idle? && !PhaseOf(s, t).Checked?
  }

  function Covering(blocks: set<Block>, pcOf: Pcs, pc: nat): set<Block>
  {
    set b | b in blocks && exists x :: x in b.locations && pcOf(x) == pc
  }

  /** A thread in this phase will drop what covers site `i`: what is fetched goes on to the last site noted. */
  predicate Reaches(p: Phase, i: nat)
  {
    match p
    case Claimed(from, _) => from <= i
    case Dropping(from, _, pcs, done) => from + done <= i < from + |pcs|
    case _ => false
  }

  function PcsOf(sites: seq<nat>, pcOf: Pcs): (r: seq<nat>)
    ensures |r| == |sites| && forall i :: 0 <= i < |r| ==> r[i] == pcOf(sites[i])
  {
    seq(|sites|, i requires 0 <= i < |sites| => pcOf(sites[i]))
  }

  /** The locations a translation masks: those noted by then. */
  function Masked(locations: set<nat>, sites: seq<nat>): set<nat>
  {
    set x | x in locations && x in sites
  }

  function At(s: State, t: nat, p: Phase): State
  {
    s.(threads := s.threads[t := p])
  }

  function Next(s: State, e: Event, pcOf: Pcs): State
    requires Enabled(s, e)
  {
    match e
    case Call(t) => if t in s.executing then s else At(s, t, Checked)
    case Enter(t) => At(s, t, Running).(executing := s.executing + {t})
    case Note(_, x) => if x in s.sites then s else s.(sites := s.sites + [x])
    case Translate(_, xs) => s.(blocks := s.blocks + {Block(xs, Masked(xs, s.sites))})
    case Evict(b) => s.(blocks := s.blocks - {b})
    case Leave(t) => At(s, t, Left).(executing := s.executing - {t})
    case LoadNoted(t, n) => At(s, t, Noted(n))
    case LoadSeen(t, n) => At(s, t, Compared(PhaseOf(s, t).noted, n))
    case CompareExchange(t) =>
      var p := PhaseOf(s, t);
      if p.from < p.noted && s.seen == p.from
      then At(s, t, Claimed(p.from, p.noted)).(seen := p.noted, claims := s.claims + [(p.from, p.noted)])
      else At(s, t, Idle)
    case FetchSites(t) =>
      var p := PhaseOf(s, t);
      var pcs := if p.from < |s.sites| then PcsOf(s.sites[p.from..], pcOf) else [];
      At(s, t, Dropping(p.from, p.to, pcs, 0))
    case DropOne(t) =>
      var p := PhaseOf(s, t);
      At(s, t, p.(done := p.done + 1)).(blocks := s.blocks - Covering(s.blocks, pcOf, p.pcs[p.done]))
    case Return(t) => At(s, t, Idle)
    case Throw(t) => At(s, t, Idle).(executing := s.executing - {t})
  }

  /**
   * A block leaves the cache when it is evicted, or when an address of one of its locations is dropped, and
   * at no other step; and no step but a translation puts one there.
   */
  lemma BlocksGone(s: State, e: Event, pcOf: Pcs, b: Block)
    requires Enabled(s, e)
    ensures b in s.blocks ==>
              (b !in Next(s, e, pcOf).blocks <==>
               || e == Evict(b)
               || (e.DropOne? && var p := PhaseOf(s, e.t); exists x :: x in b.locations && pcOf(x) == p.pcs[p.done]))
    ensures b !in s.blocks && b in Next(s, e, pcOf).blocks ==>
              e.Translate? && b.locations == e.locations &&
              forall x :: x in b.masked <==> x in e.locations && x in s.sites
  {
  }

  /**
   * A thread in a call can always take a step of its own, and a load may return every value stored so far.
   * While its jit runs, a callback may call in again, sites may be noted and blocks translated.
   */
  lemma NeverStuck(s: State, t: nat, pcOf: Pcs) returns (e: Event)
    requires !PhaseOf(s, t).Idle?
    ensures Enabled(s, e) && PhaseOf(Next(s, e, pcOf), t) != PhaseOf(s, t)
    ensures PhaseOf(s, t).Left? ==> forall n: nat :: n <= |s.sites| ==> Enabled(s, LoadNoted(t, n))
    ensures PhaseOf(s, t).Noted? ==> forall n: nat :: n <= s.seen ==> Enabled(s, LoadSeen(t, n))
    ensures !PhaseOf(s, t).Checked? ==> Enabled(s, Throw(t))
    ensures PhaseOf(s, t).Running? ==> Enabled(s, Call(t)) && forall x: nat :: Enabled(s, Note(t, x))
    ensures PhaseOf(s, t).Running? ==> forall xs: set<nat> :: Enabled(s, Translate(t, xs))
  {
    match PhaseOf(s, t)
    case Checked => e := Enter(t);
    case Running => e := Leave(t);
    case Left => e := LoadNoted(t, |s.sites|);
    case Noted(_) => e := LoadSeen(t, s.seen);
    case Compared(_, _) => e := CompareExchange(t);
    case Claimed(_, _) => e := FetchSites(t);
    case Dropping(_, _, pcs, done) => e := if done < |pcs| then DropOne(t) else Throw(t);
  }

  ghost predicate AllEnabled(s: State, es: seq<Event>, pcOf: Pcs)
    decreases |es|
  {
    es == [] || (Enabled(s, es[0]) && AllEnabled(Next(s, es[0], pcOf), es[1..], pcOf))
  }

  ghost function Run(s: State, es: seq<Event>, pcOf: Pcs): State
    requires AllEnabled(s, es, pcOf)
    decreases |es|
  {
    if es == [] then s else Run(Next(s, es[0], pcOf), es[1..], pcOf)
  }

  const START := State([], 0, map[], {}, [], {})

  // ---------------------------------------------------------------- what every step keeps

  /** The ranges won follow one another from 0 up to what is seen. */
  ghost predicate Tiles(claims: seq<(nat, nat)>, seen: nat)
  {
    && (if claims == [] then seen == 0 else claims[0].0 == 0 && claims[|claims| - 1].1 == seen)
    && (forall k :: 0 <= k < |claims| ==> claims[k].0 < claims[k].1)
    && (forall k :: 0 < k < |claims| ==> claims[k - 1].1 == claims[k].0)
  }

  ghost predicate PhaseGood(s: State, p: Phase, pcOf: Pcs)
  {
    match p
    case Noted(n) => n <= |s.sites|
    case Compared(n, _) => n <= |s.sites|
    case Claimed(from, to) => (from, to) in s.claims && from < to <= s.seen
    case Dropping(from, to, pcs, done) =>
      && (from, to) in s.claims && to <= s.seen && to <= from + |pcs| && done <= |pcs| && from + |pcs| <= |s.sites|
      && forall i :: 0 <= i < |pcs| ==> pcs[i] == pcOf(s.sites[from + i])
    case _ => true
  }

  ghost predicate Reached(s: State, i: nat)
  {
    exists t :: t in s.threads && Reaches(s.threads[t], i)
  }

  /** Site `i` is in the block without its mask. */
  ghost predicate Unmasked(s: State, b: Block, i: nat)
  {
    i < |s.sites| && s.sites[i] in b.locations && s.sites[i] !in b.masked
  }

  ghost predicate Distinct(sites: seq<nat>)
  {
    forall i, j :: 0 <= i < j < |sites| ==> sites[i] != sites[j]
  }

  ghost predicate PhasesGood(s: State, pcOf: Pcs)
  {
    forall t :: t in s.threads ==> PhaseGood(s, s.threads[t], pcOf)
  }

  /** A jit's flag is set exactly while it is running. */
  ghost predicate FlagsGood(s: State)
  {
    forall t :: t in s.executing <==> PhaseOf(s, t).Running?
  }

  /** What every step keeps, whoever throws. */
  ghost predicate Core(s: State, pcOf: Pcs)
  {
    Tiles(s.claims, s.seen) && s.seen <= |s.sites| && Distinct(s.sites) && PhasesGood(s, pcOf) && FlagsGood(s)
  }

  /** If the block is cached with site `i` unmasked, the site is still to be claimed or some thread will drop it. */
  ghost predicate Watched(s: State, b: Block, i: nat)
  {
    b in s.blocks && Unmasked(s, b, i) ==> i >= s.seen || Reached(s, i)
  }

  /** Every unmasked block is accounted for. */
  ghost predicate Accounted(s: State)
  {
    forall b, i: nat {:trigger Watched(s, b, i)} :: Watched(s, b, i)
  }

  /** By throwing, the thread leaves a seen site that no other thread reaches. */
  ghost predicate Leaves(s: State, t: nat, i: nat)
  {
    i < s.seen && Reaches(PhaseOf(s, t), i) && forall u :: u in s.threads && u != t ==> !Reaches(s.threads[u], i)
  }

  lemma ClaimTiles(claims: seq<(nat, nat)>, seen: nat, to: nat)
    requires Tiles(claims, seen) && seen < to
    ensures Tiles(claims + [(seen, to)], to)
  {
  }

  lemma StepPhases(s: State, e: Event, pcOf: Pcs)
    requires Core(s, pcOf) && Enabled(s, e)
    ensures PhasesGood(Next(s, e, pcOf), pcOf)
  {
    hide Tiles, Distinct, FlagsGood;
    var n := Next(s, e, pcOf);
    forall t | t in n.threads
      ensures PhaseGood(n, n.threads[t], pcOf)
    {
    }
  }

  lemma StepFlags(s: State, e: Event, pcOf: Pcs)
    requires FlagsGood(s) && Enabled(s, e)
    ensures FlagsGood(Next(s, e, pcOf))
  {
    hide PcsOf, Covering, Masked;
  }

  /** Every step keeps the claims a tiling and what is seen noted; sites and claims only grow. */
  lemma StepCore(s: State, e: Event, pcOf: Pcs)
    requires Core(s, pcOf) && Enabled(s, e)
    ensures Core(Next(s, e, pcOf), pcOf)
    ensures s.seen <= Next(s, e, pcOf).seen && s.claims <= Next(s, e, pcOf).claims && s.sites <= Next(s, e, pcOf).sites
  {
    StepPhases(s, e, pcOf);
    StepFlags(s, e, pcOf);
    if e.CompareExchange? && PhaseOf(s, e.t).from == s.seen < PhaseOf(s, e.t).noted {
      ClaimTiles(s.claims, s.seen, PhaseOf(s, e.t).noted);
    }
  }

  /** One thread moves on; nobody else's drops change. */
  lemma Carry(s: State, n: State, t: nat, p: Phase, i: nat)
    requires Reached(s, i) && n.threads == s.threads[t := p] && (Reaches(PhaseOf(s, t), i) ==> Reaches(p, i))
    ensures Reached(n, i)
  {
    var u :| u in s.threads && Reaches(s.threads[u], i);
    if u != t {
      assert n.threads[u] == s.threads[u];
    } else {
      assert n.threads[t] == p;
    }
  }

  lemma StepClaims(s: State, t: nat, i: nat, pcOf: Pcs)
    requires PhaseOf(s, t).Compared? && (i >= s.seen || Reached(s, i))
    ensures var n := Next(s, CompareExchange(t), pcOf); i >= n.seen || Reached(n, i)
  {
    var n := Next(s, CompareExchange(t), pcOf);
    assert n.threads[t] == PhaseOf(n, t);
    if i < s.seen {
      Carry(s, n, t, n.threads[t], i);
    }
  }

  lemma FetchReaches(s: State, t: nat, i: nat, pcOf: Pcs)
    requires Core(s, pcOf) && PhaseOf(s, t).Claimed? && i < s.seen && Reached(s, i)
    ensures Reached(Next(s, FetchSites(t), pcOf), i)
  {
    hide Tiles, Distinct, PhasesGood, FlagsGood;
    var n := Next(s, FetchSites(t), pcOf);
    Carry(s, n, t, n.threads[t], i);
  }

  /** What is left after one address is dropped does not hold that address's site. */
  lemma StepDrops(s: State, t: nat, b: Block, i: nat, pcOf: Pcs)
    requires t in s.threads && PhaseGood(s, s.threads[t], pcOf) && Enabled(s, DropOne(t)) && Reached(s, i)
    requires b in Next(s, DropOne(t), pcOf).blocks && i < |s.sites| && s.sites[i] in b.locations
    ensures Reached(Next(s, DropOne(t), pcOf), i)
  {
    var n := Next(s, DropOne(t), pcOf);
    NothingLeftAt(s, t, b, pcOf);
    Carry(s, n, t, n.threads[t], i);
  }

  lemma NothingLeftAt(s: State, t: nat, b: Block, pcOf: Pcs)
    requires t in s.threads && PhaseGood(s, s.threads[t], pcOf) && Enabled(s, DropOne(t))
    requires b in Next(s, DropOne(t), pcOf).blocks
    ensures s.sites[s.threads[t].from + s.threads[t].done] !in b.locations
  {
    var p := s.threads[t];
    var x := s.sites[p.from + p.done];
    assert p.pcs[p.done] == pcOf(x);
    assert b !in Covering(s.blocks, pcOf, pcOf(x));
  }

  lemma OnlyTaken(s: State, e: Event, pcOf: Pcs, b: Block, i: nat)
    requires Enabled(s, e) && b in Next(s, e, pcOf).blocks && Unmasked(Next(s, e, pcOf), b, i)
             && i < s.seen <= |s.sites|
    ensures b in s.blocks && Unmasked(s, b, i)
  {
  }

  lemma StepReached(s: State, e: Event, pcOf: Pcs, b: Block, i: nat)
    requires Core(s, pcOf) && Enabled(s, e) && Reached(s, i) && i < s.seen && (e.Throw? ==> !Leaves(s, e.t, i))
    requires b in Next(s, e, pcOf).blocks && s.sites[i] in b.locations
    ensures Reached(Next(s, e, pcOf), i)
  {
    hide Tiles, Distinct, FlagsGood;
    var n := Next(s, e, pcOf);
    match e
    case CompareExchange(t) => StepClaims(s, t, i, pcOf);
    case FetchSites(t) => FetchReaches(s, t, i, pcOf);
    case DropOne(t) => StepDrops(s, t, b, i, pcOf);
    case Throw(t) => ThrowReaches(s, t, i, pcOf);
    case Evict(_) =>
    case _ =>
      if n != s {
        OtherPhases(s, e, i, pcOf);
      }
  }

  lemma OtherPhases(s: State, e: Event, i: nat, pcOf: Pcs)
    requires Enabled(s, e) && Reached(s, i)
    requires e.Call? || e.Enter? || e.Note? || e.Translate? || e.Leave? || e.LoadNoted? || e.LoadSeen? || e.Return?
    ensures Reached(Next(s, e, pcOf), i)
  {
    var n := Next(s, e, pcOf);
    var u :| u in s.threads && Reaches(s.threads[u], i);
    assert u in n.threads && n.threads[u] == s.threads[u];
  }

  lemma ThrowReaches(s: State, t: nat, i: nat, pcOf: Pcs)
    requires Enabled(s, Throw(t)) && Reached(s, i) && i < s.seen && !Leaves(s, t, i)
    ensures Reached(Next(s, Throw(t), pcOf), i)
  {
    var u :| u in s.threads && u != t && Reaches(s.threads[u], i);
    assert Next(s, Throw(t), pcOf).threads[u] == s.threads[u];
  }

  /** A step goes on watching a block's site unless it is a throw that leaves that site. */
  lemma StepWatched(s: State, e: Event, pcOf: Pcs, b: Block, i: nat)
    requires Core(s, pcOf) && Enabled(s, e) && Watched(s, b, i)
    requires e.Throw? && b in s.blocks && Unmasked(s, b, i) ==> !Leaves(s, e.t, i)
    ensures Watched(Next(s, e, pcOf), b, i)
  {
    hide Tiles, Distinct, FlagsGood, PhasesGood, Reached, Leaves;
    var n := Next(s, e, pcOf);
    if b in n.blocks && Unmasked(n, b, i) && i < n.seen {
      if i < s.seen {
        OnlyTaken(s, e, pcOf, b, i);
        StepReached(s, e, pcOf, b, i);
      } else {
        StepClaims(s, e.t, i, pcOf);
      }
    }
  }

  ghost predicate LeavesNone(s: State, t: nat)
  {
    forall b, i: nat :: b in s.blocks && Unmasked(s, b, i) ==> !Leaves(s, t, i)
  }

  /**
   * Every step keeps every unmasked block accounted for, but a throw: that does exactly when it leaves no
   * site which a cached block holds unmasked.
   */
  lemma StepAccounted(s: State, e: Event, pcOf: Pcs)
    requires Core(s, pcOf) && Accounted(s) && Enabled(s, e)
    ensures Accounted(Next(s, e, pcOf)) <==> (e.Throw? ==> LeavesNone(s, e.t))
  {
    hide Core, Enabled, Watched, Leaves, Unmasked, Next;
    if e.Throw? ==> LeavesNone(s, e.t) {
      forall b, i: nat {:trigger Watched(Next(s, e, pcOf), b, i)}
        ensures Watched(Next(s, e, pcOf), b, i)
      {
        assert Watched(s, b, i);
        StepWatched(s, e, pcOf, b, i);
      }
    } else {
      var b, i: nat :| b in s.blocks && Unmasked(s, b, i) && Leaves(s, e.t, i);
      LeftUnwatched(s, e.t, pcOf, b, i);
    }
  }

  lemma LeftUnwatched(s: State, t: nat, pcOf: Pcs, b: Block, i: nat)
    requires Enabled(s, Throw(t)) && b in s.blocks && Unmasked(s, b, i) && Leaves(s, t, i)
    ensures !Watched(Next(s, Throw(t), pcOf), b, i)
  {
  }

  lemma {:induction false} RunCore(s: State, es: seq<Event>, pcOf: Pcs)
    requires Core(s, pcOf) && AllEnabled(s, es, pcOf)
    ensures Core(Run(s, es, pcOf), pcOf)
    ensures s.seen <= Run(s, es, pcOf).seen && s.claims <= Run(s, es, pcOf).claims && s.sites <= Run(s, es, pcOf).sites
    decreases |es|
  {
    hide Core, Enabled, Next;
    if es != [] {
      StepCore(s, es[0], pcOf);
      RunCore(Next(s, es[0], pcOf), es[1..], pcOf);
    }
  }

  // ---------------------------------------------------------------- over whole runs

  /** Every winner has finished. */
  ghost predicate Quiet(s: State)
  {
    forall t :: t in s.threads ==> !s.threads[t].Claimed? && !s.threads[t].Dropping?
  }

  /** Some throw of the run left site `i` to no thread while the block was cached with it unmasked. */
  ghost predicate Abandoned(s: State, es: seq<Event>, pcOf: Pcs, b: Block, i: nat)
    requires AllEnabled(s, es, pcOf)
    decreases |es|
  {
    && es != []
    && ((es[0].Throw? && b in s.blocks && Unmasked(s, b, i) && Leaves(s, es[0].t, i))
        || Abandoned(Next(s, es[0], pcOf), es[1..], pcOf, b, i))
  }

  lemma {:induction false} RunWatched(s: State, es: seq<Event>, pcOf: Pcs, b: Block, i: nat)
    requires Core(s, pcOf) && AllEnabled(s, es, pcOf) && Watched(s, b, i)
    ensures Watched(Run(s, es, pcOf), b, i) || Abandoned(s, es, pcOf, b, i)
    decreases |es|
  {
    hide Core, Enabled, Next, Watched, Leaves, Unmasked;
    if es != [] && !(es[0].Throw? && b in s.blocks && Unmasked(s, b, i) && Leaves(s, es[0].t, i)) {
      StepCore(s, es[0], pcOf);
      StepWatched(s, es[0], pcOf, b, i);
      RunWatched(Next(s, es[0], pcOf), es[1..], pcOf, b, i);
    }
  }

  /** A seen site that no thread reaches is never reached again: later claims start after it. */
  ghost predicate Unreached(s: State, i: nat)
  {
    i < s.seen && !Reached(s, i)
  }

  lemma StepUnreached(s: State, e: Event, pcOf: Pcs, i: nat)
    requires Core(s, pcOf) && Enabled(s, e) && Unreached(s, i)
    ensures Unreached(Next(s, e, pcOf), i)
  {
    hide Tiles, Distinct, FlagsGood, PhasesGood, Covering, Masked;
    var n := Next(s, e, pcOf);
    forall t | t in n.threads
      ensures !Reaches(n.threads[t], i)
    {
      assert t in s.threads ==> !Reaches(s.threads[t], i);
    }
  }

  lemma ThrowUnreaches(s: State, t: nat, pcOf: Pcs, i: nat)
    requires Enabled(s, Throw(t)) && Leaves(s, t, i)
    ensures Unreached(Next(s, Throw(t), pcOf), i)
  {
  }

  lemma {:induction false} RunUnreached(s: State, es: seq<Event>, pcOf: Pcs, i: nat)
    requires Core(s, pcOf) && AllEnabled(s, es, pcOf) && Unreached(s, i)
    ensures Unreached(Run(s, es, pcOf), i)
    decreases |es|
  {
    hide Core, Enabled, Next, Unreached;
    if es != [] {
      StepCore(s, es[0], pcOf);
      StepUnreached(s, es[0], pcOf, i);
      RunUnreached(Next(s, es[0], pcOf), es[1..], pcOf, i);
    }
  }

  lemma UnmaskedGrows(s: State, n: State, b: Block, i: nat)
    requires Unmasked(s, b, i) && s.sites <= n.sites
    ensures Unmasked(n, b, i)
  {
  }

  /** What was abandoned is reached by nobody to the end of the run. */
  lemma {:induction false} AbandonedStays(s: State, es: seq<Event>, pcOf: Pcs, b: Block, i: nat)
    requires Core(s, pcOf) && AllEnabled(s, es, pcOf) && Abandoned(s, es, pcOf, b, i)
    ensures Unmasked(Run(s, es, pcOf), b, i) && Unreached(Run(s, es, pcOf), i)
    decreases |es|
  {
    hide Core, Enabled, Next, Unreached, Unmasked, Leaves;
    StepCore(s, es[0], pcOf);
    var n := Next(s, es[0], pcOf);
    if Abandoned(n, es[1..], pcOf, b, i) {
      AbandonedStays(n, es[1..], pcOf, b, i);
    } else {
      ThrowUnreaches(s, es[0].t, pcOf, i);
      RunUnreached(n, es[1..], pcOf, i);
      RunCore(n, es[1..], pcOf);
      UnmaskedGrows(s, Run(s, es, pcOf), b, i);
    }
  }

  lemma {:induction false} ClaimOrder(claims: seq<(nat, nat)>, seen: nat, j: nat, k: nat)
    requires Tiles(claims, seen) && j < k < |claims|
    ensures claims[j].1 <= claims[k].0
    decreases k
  {
    if j + 1 < k {
      ClaimOrder(claims, seen, j, k - 1);
    }
  }

  lemma {:induction false} ClaimFor(claims: seq<(nat, nat)>, seen: nat, i: nat, n: nat) returns (k: nat)
    requires Tiles(claims, seen) && 0 < n <= |claims| && i < claims[n - 1].1
    ensures k < n && claims[k].0 <= i < claims[k].1
    decreases n
  {
    if claims[n - 1].0 <= i {
      k := n - 1;
    } else {
      k := ClaimFor(claims, seen, i, n - 1);
    }
  }

  ghost predicate Won(claims: seq<(nat, nat)>, k: nat, i: nat)
  {
    k < |claims| && claims[k].0 <= i < claims[k].1
  }

  lemma TiledOnce(claims: seq<(nat, nat)>, seen: nat, i: nat)
    requires Tiles(claims, seen)
    ensures i < seen <==> exists k :: Won(claims, k, i)
    ensures forall j, k :: Won(claims, j, i) && Won(claims, k, i) ==> j == k
  {
    if i < seen {
      var k := ClaimFor(claims, seen, i, |claims|);
      assert Won(claims, k, i);
    }
    forall k | 0 <= k < |claims|
      ensures claims[k].1 <= seen
    {
      if k < |claims| - 1 {
        ClaimOrder(claims, seen, k, |claims| - 1);
      }
    }
    forall j, k | Won(claims, j, i) && Won(claims, k, i)
      ensures j == k
    {
      if j < k {
        ClaimOrder(claims, seen, j, k);
      } else if k < j {
        ClaimOrder(claims, seen, k, j);
      }
    }
  }

  /** After any run of any threads, each seen site was won by exactly one claim, and only noted sites are seen. */
  lemma EachSiteWonOnce(es: seq<Event>, pcOf: Pcs, i: nat)
    requires AllEnabled(START, es, pcOf)
    ensures var s := Run(START, es, pcOf);
            && s.seen <= |s.sites|
            && (i < s.seen <==> exists k :: Won(s.claims, k, i))
            && forall j, k :: Won(s.claims, j, i) && Won(s.claims, k, i) ==> j == k
  {
    RunCore(START, es, pcOf);
    hide Run, AllEnabled, PhasesGood, FlagsGood, Tiles, Distinct;
    TiledOnce(Run(START, es, pcOf).claims, Run(START, es, pcOf).seen, i);
  }

  lemma StartWatched(pcOf: Pcs, b: Block, i: nat)
    ensures Core(START, pcOf) && Watched(START, b, i)
  {
  }

  /**
   * Once every winner has finished, a cached block holds a seen site without its mask exactly when some
   * throw left that site to no thread while the block was cached.
   */
  lemma UnmaskedExactly(es: seq<Event>, pcOf: Pcs, b: Block, i: nat)
    requires AllEnabled(START, es, pcOf) && Quiet(Run(START, es, pcOf))
    requires b in Run(START, es, pcOf).blocks && i < Run(START, es, pcOf).seen
    ensures Unmasked(Run(START, es, pcOf), b, i) <==> Abandoned(START, es, pcOf, b, i)
  {
    StartWatched(pcOf, b, i);
    RunWatched(START, es, pcOf, b, i);
    var s := Run(START, es, pcOf);
    hide Run, AllEnabled, Abandoned, Unmasked, Core;
    assert !Reached(s, i);
    if Abandoned(START, es, pcOf, b, i) {
      AbandonedStays(START, es, pcOf, b, i);
    }
  }

  /** No throw of the run leaves a seen site that no thread reaches. */
  ghost predicate NoneLeft(s: State, es: seq<Event>, pcOf: Pcs)
    requires AllEnabled(s, es, pcOf)
    decreases |es|
  {
    es == [] || ((es[0].Throw? ==> forall i :: !Leaves(s, es[0].t, i)) && NoneLeft(Next(s, es[0], pcOf), es[1..], pcOf))
  }

  lemma {:induction false} NoneAbandoned(s: State, es: seq<Event>, pcOf: Pcs, b: Block, i: nat)
    requires AllEnabled(s, es, pcOf) && NoneLeft(s, es, pcOf)
    ensures !Abandoned(s, es, pcOf, b, i)
    decreases |es|
  {
    hide Enabled, Next, Unmasked, Leaves;
    if es != [] {
      NoneAbandoned(Next(s, es[0], pcOf), es[1..], pcOf, b, i);
    }
  }

  /** So where no throw does, no cached block holds a seen site without its mask. */
  lemma SeenSitesAreMasked(es: seq<Event>, pcOf: Pcs, b: Block, i: nat)
    requires AllEnabled(START, es, pcOf) && NoneLeft(START, es, pcOf) && Quiet(Run(START, es, pcOf))
    requires b in Run(START, es, pcOf).blocks && i < Run(START, es, pcOf).seen
    ensures var s := Run(START, es, pcOf);
            i < |s.sites| && (s.sites[i] in b.locations ==> s.sites[i] in b.masked)
  {
    StartWatched(pcOf, b, i);
    RunCore(START, es, pcOf);
    NoneAbandoned(START, es, pcOf, b, i);
    UnmaskedExactly(es, pcOf, b, i);
    hide Run, AllEnabled, Abandoned, NoneLeft, PhasesGood, FlagsGood, Tiles, Distinct, Quiet;
  }

  // ---------------------------------------------------------------- a site that is left

  /** Nothing in the run evicts the block or drops an address it has a location at. */
  ghost predicate Spared(s: State, es: seq<Event>, pcOf: Pcs, b: Block)
    requires AllEnabled(s, es, pcOf)
    decreases |es|
  {
    || es == []
    || (&& es[0] != Evict(b)
        && (es[0].DropOne? ==> forall x :: x in b.locations ==> pcOf(x) != DroppedBy(s, es[0].t))
        && Spared(Next(s, es[0], pcOf), es[1..], pcOf, b))
  }

  function DroppedBy(s: State, t: nat): nat
    requires Enabled(s, DropOne(t))
  {
    PhaseOf(s, t).pcs[PhaseOf(s, t).done]
  }

  lemma StepSpared(s: State, e: Event, pcOf: Pcs, b: Block)
    requires Enabled(s, e) && b in s.blocks && e != Evict(b)
    requires e.DropOne? ==> forall x :: x in b.locations ==> pcOf(x) != DroppedBy(s, e.t)
    ensures b in Next(s, e, pcOf).blocks
  {
    hide PcsOf, Masked;
  }

  lemma {:induction false} RunSpared(s: State, es: seq<Event>, pcOf: Pcs, b: Block)
    requires AllEnabled(s, es, pcOf) && Spared(s, es, pcOf, b) && b in s.blocks
    ensures b in Run(s, es, pcOf).blocks
    decreases |es|
  {
    hide Enabled, Next, DroppedBy;
    if es != [] {
      StepSpared(s, es[0], pcOf, b);
      RunSpared(Next(s, es[0], pcOf), es[1..], pcOf, b);
    }
  }

  /**
   * A throw that leaves a site leaves every cached block that holds it unmasked as it is, through every
   * run that neither evicts the block nor drops an address of it; and no thread ever reaches the site.
   */
  lemma LeftStaysUnmasked(s: State, t: nat, i: nat, b: Block, es: seq<Event>, pcOf: Pcs)
    requires Core(s, pcOf) && Enabled(s, Throw(t)) && Leaves(s, t, i) && b in s.blocks && Unmasked(s, b, i)
    requires AllEnabled(Next(s, Throw(t), pcOf), es, pcOf) && Spared(Next(s, Throw(t), pcOf), es, pcOf, b)
    ensures var n := Run(Next(s, Throw(t), pcOf), es, pcOf); b in n.blocks && Unmasked(n, b, i) && Unreached(n, i)
  {
    var left := Next(s, Throw(t), pcOf);
    StepCore(s, Throw(t), pcOf);
    ThrowUnreaches(s, t, pcOf, i);
    StepSpared(s, Throw(t), pcOf, b);
    hide Core, Enabled, Next, Leaves, Unmasked, Unreached;
    RunUnreached(left, es, pcOf, i);
    RunSpared(left, es, pcOf, b);
    RunCore(left, es, pcOf);
    UnmaskedGrows(s, Run(left, es, pcOf), b, i);
  }

  /** No other site has this one's address. */
  ghost predicate AloneAt(sites: seq<nat>, i: nat, pcOf: Pcs)
  {
    i < |sites| && forall j :: 0 <= j < |sites| && j != i ==> pcOf(sites[j]) != pcOf(sites[i])
  }

  lemma NotDropped(s: State, t: nat, i: nat, pcOf: Pcs)
    requires Core(s, pcOf) && Enabled(s, DropOne(t)) && Unreached(s, i) && AloneAt(s.sites, i, pcOf)
    ensures DroppedBy(s, t) != pcOf(s.sites[i])
  {
    hide Tiles, Distinct, FlagsGood;
    var p := s.threads[t];
    assert PhaseGood(s, p, pcOf) && Reaches(p, p.from + p.done);
  }

  lemma AloneBefore(less: seq<nat>, more: seq<nat>, i: nat, pcOf: Pcs)
    requires AloneAt(more, i, pcOf) && less <= more && i < |less|
    ensures AloneAt(less, i, pcOf) && less[i] == more[i]
  {
  }

  /** The run does not evict the block. */
  predicate Kept(es: seq<Event>, b: Block)
  {
    Evict(b) !in es
  }

  lemma {:induction false} AloneSpared(s: State, es: seq<Event>, pcOf: Pcs, b: Block, i: nat)
    requires Core(s, pcOf) && AllEnabled(s, es, pcOf) && Unreached(s, i) && Kept(es, b)
    requires AloneAt(Run(s, es, pcOf).sites, i, pcOf) && b.locations == {Run(s, es, pcOf).sites[i]}
    ensures Spared(s, es, pcOf, b)
    decreases |es|
  {
    hide Core, Next, Enabled, Unreached, AloneAt, DroppedBy;
    if es != [] {
      var n := Next(s, es[0], pcOf);
      StepCore(s, es[0], pcOf);
      StepUnreached(s, es[0], pcOf, i);
      RunCore(s, es, pcOf);
      SeenNoted(s, i, pcOf);
      AloneBefore(s.sites, Run(s, es, pcOf).sites, i, pcOf);
      if es[0].DropOne? {
        NotDropped(s, es[0].t, i, pcOf);
      }
      AloneSpared(n, es[1..], pcOf, b, i);
    }
  }

  lemma SeenNoted(s: State, i: nat, pcOf: Pcs)
    requires Core(s, pcOf) && Unreached(s, i)
    ensures i < |s.sites|
  {
  }

  /**
   * Where no other site ever noted has its address, the block of a site that is left stays unmasked
   * whatever any thread does after, until it is evicted.
   */
  lemma LeftForGood(s: State, t: nat, i: nat, b: Block, es: seq<Event>, pcOf: Pcs)
    requires Core(s, pcOf) && Enabled(s, Throw(t)) && Leaves(s, t, i) && b in s.blocks && Unmasked(s, b, i)
    requires b.locations == {s.sites[i]} && AllEnabled(Next(s, Throw(t), pcOf), es, pcOf) && Kept(es, b)
    requires AloneAt(Run(Next(s, Throw(t), pcOf), es, pcOf).sites, i, pcOf)
    ensures var n := Run(Next(s, Throw(t), pcOf), es, pcOf); b in n.blocks && Unmasked(n, b, i) && Unreached(n, i)
  {
    var left := Next(s, Throw(t), pcOf);
    assert left.sites == s.sites && i < |s.sites|;
    StepCore(s, Throw(t), pcOf);
    ThrowUnreaches(s, t, pcOf, i);
    hide Core, Next, Enabled, Unreached, AloneAt, Leaves, Unmasked;
    RunCore(left, es, pcOf);
    AloneSpared(left, es, pcOf, b, i);
    LeftStaysUnmasked(s, t, i, b, es, pcOf);
  }

  const LOSING: seq<Event> :=
    [Call(0), Enter(0), Translate(0, {4}), Note(0, 4), Leave(0), LoadNoted(0, 1), LoadSeen(0, 0), CompareExchange(0),
     Throw(0)]

  /** One thread that wins a site and throws, after `k` steps. */
  function Losing(k: nat): State
  {
    State(if k < 4 then [] else [4], if k < 8 then 0 else 1,
          if k == 0 then map[]
          else map[0 := if k == 1 then Checked else if k <= 4 then Running else if k == 5 then Left
                        else if k == 6 then Noted(1) else if k == 7 then Compared(1, 0)
                        else if k == 8 then Claimed(0, 1) else Idle],
          if k < 3 then {} else {Block({4}, {})}, if k < 8 then [] else [(0, 1)], if 2 <= k <= 4 then {0} else {})
  }

  lemma LosingStep(k: nat)
    requires k < 9
    ensures Enabled(Losing(k), LOSING[k]) && Next(Losing(k), LOSING[k], x => x) == Losing(k + 1)
  {
    hide PcsOf, Covering, Reaches;
    if k == 2 {
      assert Masked({4}, []) == {};
    }
    var n, m := Next(Losing(k), LOSING[k], x => x), Losing(k + 1);
    assert n.threads == m.threads && n.blocks == m.blocks && n.executing == m.executing;
    assert n.sites == m.sites && n.claims == m.claims && n.seen == m.seen;
  }

  lemma {:induction false} LosingRun(k: nat)
    requires k <= 9
    ensures AllEnabled(Losing(k), LOSING[k..], x => x) && Run(Losing(k), LOSING[k..], x => x) == Losing(9)
    decreases 9 - k
  {
    hide Losing, Next, Enabled;
    if k < 9 {
      LosingStep(k);
      LosingRun(k + 1);
      assert LOSING[k..][1..] == LOSING[k + 1..];
    }
  }

  /** A winner that throws may not be made up for: all threads are done, and a seen site's block is still unmasked. */
  lemma ThrowLosesSites()
    ensures AllEnabled(START, LOSING, x => x)
    ensures var s := Run(START, LOSING, x => x);
            && (forall t :: t in s.threads ==> s.threads[t].Idle?)
            && exists b :: b in s.blocks && 0 < s.seen && Unmasked(s, b, 0)
  {
    hide Run, AllEnabled, Enabled, Next;
    LosingRun(0);
    assert Losing(0) == START && LOSING[0..] == LOSING;
    assert Block({4}, {}) in Losing(9).blocks;
    assert Unmasked(Losing(9), Block({4}, {}), 0);
  }

  // ---------------------------------------------------------------- a jit is entered once

  lemma {:induction false} AllEnabledSplit(s: State, a: seq<Event>, b: seq<Event>, pcOf: Pcs)
    requires AllEnabled(s, a + b, pcOf)
    ensures AllEnabled(s, a, pcOf) && AllEnabled(Run(s, a, pcOf), b, pcOf)
    decreases |a|
  {
    hide Enabled, Next;
    if a == [] {
      assert a + b == b;
    } else {
      assert (a + b)[1..] == a[1..] + b;
      AllEnabledSplit(Next(s, a[0], pcOf), a[1..], b, pcOf);
    }
  }

  /** Whatever calls callbacks make, `Run` is never entered on a jit that is executing. */
  lemma NeverEnteredExecuting(es: seq<Event>, t: nat, pcOf: Pcs)
    requires AllEnabled(START, es + [Enter(t)], pcOf)
    ensures AllEnabled(START, es, pcOf) && t !in Run(START, es, pcOf).executing
  {
    AllEnabledSplit(START, es, [Enter(t)], pcOf);
    StartWatched(pcOf, Block({}, {}), 0);
    RunCore(START, es, pcOf);
    hide Run, Tiles, Distinct, PhasesGood;
  }

  /** A call is refused, and changes nothing, exactly when its jit is running; any other goes on to enter it. */
  lemma RefusedExactly(es: seq<Event>, t: nat, pcOf: Pcs)
    requires AllEnabled(START, es + [Call(t)], pcOf)
    ensures AllEnabled(START, es, pcOf) && Enabled(Run(START, es, pcOf), Call(t))
    ensures var s := Run(START, es, pcOf);
            var n := Next(s, Call(t), pcOf);
            if PhaseOf(s, t).Running? then n == s else Enabled(n, Enter(t))
  {
    AllEnabledSplit(START, es, [Call(t)], pcOf);
    StartWatched(pcOf, Block({}, {}), 0);
    RunCore(START, es, pcOf);
    hide Run, Tiles, Distinct, PhasesGood;
  }

  /** The run without the calls that find the flag set. */
  ghost function WithoutRefused(s: State, es: seq<Event>, pcOf: Pcs): seq<Event>
    requires AllEnabled(s, es, pcOf)
    decreases |es|
  {
    if es == [] then []
    else
      var rest := WithoutRefused(Next(s, es[0], pcOf), es[1..], pcOf);
      if es[0].Call? && es[0].t in s.executing then rest else [es[0]] + rest
  }

  /** The calls refused leave no trace: without them the run goes the same way. */
  lemma {:induction false} RefusedLeaveNoTrace(s: State, es: seq<Event>, pcOf: Pcs)
    requires AllEnabled(s, es, pcOf)
    ensures AllEnabled(s, WithoutRefused(s, es, pcOf), pcOf)
    ensures Run(s, WithoutRefused(s, es, pcOf), pcOf) == Run(s, es, pcOf)
    decreases |es|
  {
    hide Enabled;
    if es != [] {
      var rest := WithoutRefused(Next(s, es[0], pcOf), es[1..], pcOf);
      RefusedLeaveNoTrace(Next(s, es[0], pcOf), es[1..], pcOf);
      assert ([es[0]] + rest)[1..] == rest;
    }
  }

  /** How many times thread `t` has gone into the jit and not come out, by returning from it or throwing in it. */
  ghost function Depth(s: State, es: seq<Event>, t: nat, pcOf: Pcs): int
    requires AllEnabled(s, es, pcOf)
    decreases |es|
  {
    if es == [] then 0
    else Depth(Next(s, es[0], pcOf), es[1..], t, pcOf) +
         match es[0] {
           case Enter(u) => if u == t then 1 else 0
           case Leave(u) => if u == t then -1 else 0
           case Throw(u) => if u == t && PhaseOf(s, t).Running? then -1 else 0
           case _ => 0
         }
  }

  lemma {:induction false} DepthFrom(s: State, es: seq<Event>, t: nat, pcOf: Pcs)
    requires AllEnabled(s, es, pcOf) && FlagsGood(s)
    ensures (if t in s.executing then 1 else 0) + Depth(s, es, t, pcOf) ==
            if t in Run(s, es, pcOf).executing then 1 else 0
    decreases |es|
  {
    hide PcsOf, Covering, Masked, FlagsGood;
    if es != [] {
      StepFlags(s, es[0], pcOf);
      DepthFrom(Next(s, es[0], pcOf), es[1..], t, pcOf);
      FlagTells(s, t);
    }
  }

  lemma FlagTells(s: State, t: nat)
    requires FlagsGood(s)
    ensures t in s.executing <==> PhaseOf(s, t).Running?
  {
  }

  /** Over any run of any threads, each jit is inside `Run` at most once, and exactly while its flag is set. */
  lemma InsideOnce(es: seq<Event>, t: nat, pcOf: Pcs)
    requires AllEnabled(START, es, pcOf)
    ensures Depth(START, es, t, pcOf) == if t in Run(START, es, pcOf).executing then 1 else 0
  {
    DepthFrom(START, es, t, pcOf);
  }
}
