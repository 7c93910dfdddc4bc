/** Which extensions are forwarded: removal until every one's needs hold and none has a type problem. */
module VkSelection {
  import opened Wrappers
  import opened VkDepends

  datatype Extension = Extension(vulkan: bool, provisional: bool, platform: Option<string>, depends: seq<Token>)

  /** The rules given as data: core features, allowed platforms, names excluded outright. */
  datatype Rules = Rules(core: set<string>, platforms: set<string>, banned: set<string>)

  datatype Reason = Provisional | Platform | Banned | Depends | TypeProblem

  type Extensions = map<string, Extension>

  /** What is true of an extension's types, given the live set and the one its types were looked up in. */
  type Problem = (string, set<string>, set<string>) -> bool

  function TruthOf(rules: Rules, included: set<string>): Truth
  {
    name =>
      if "VK_VERSION_" <= name then name in rules.core
      else if "VKSC_" <= name then false
      else name in included
  }

  /** The dependency holds; an extension without one (or with an empty one) needs nothing. */
  predicate Satisfied(exts: Extensions, rules: Rules, name: string, included: set<string>)
    requires name in exts
  {
    exts[name].depends == [] || Evaluated(exts[name].depends, TruthOf(rules, included)) == Some(true)
  }

  ghost predicate DependencyClosed(exts: Extensions, rules: Rules, s: set<string>)
  {
    s <= exts.Keys && forall name :: name in s ==> Satisfied(exts, rules, name, s)
  }

  /** The greatest subset of `from` in which every dependency holds. */
  ghost predicate GreatestClosed(exts: Extensions, rules: Rules, from: set<string>, s: set<string>)
  {
    && s <= from && DependencyClosed(exts, rules, s)
    && forall t :: t <= from && DependencyClosed(exts, rules, t) ==> t <= s
  }

  ghost predicate SomeMalformed(exts: Extensions)
  {
    exists name :: name in exts && exts[name].depends != [] && Malformed(exts[name].depends)
  }

  /** What holds in a set holds in every larger one. */
  lemma SatisfiedMonotone(exts: Extensions, rules: Rules, name: string, small: set<string>, large: set<string>)
    requires name in exts && small <= large && Satisfied(exts, rules, name, small)
    ensures Satisfied(exts, rules, name, large)
  {
    if exts[name].depends != [] {
      EvaluatedMonotone(exts[name].depends, TruthOf(rules, small), TruthOf(rules, large));
    }
  }

  /** Every dependency-closed part of the start is still there. */
  ghost predicate KeepsClosed(exts: Extensions, rules: Rules, from: set<string>, s: set<string>)
  {
    forall t :: t <= from && DependencyClosed(exts, rules, t) ==> t <= s
  }

  lemma RemovalKeeps(exts: Extensions, rules: Rules, from: set<string>, s: set<string>, name: string)
    requires name in exts && KeepsClosed(exts, rules, from, s) && !Satisfied(exts, rules, name, s)
    ensures KeepsClosed(exts, rules, from, s - {name})
  {
    forall t | t <= from && DependencyClosed(exts, rules, t)
      ensures t <= s - {name}
    {
      if name in t {
        SatisfiedMonotone(exts, rules, name, t, s);
      }
    }
  }

  /** Why an extension is out before any dependency is looked at; None for one that is in. */
  function RuledOut(name: string, e: Extension, rules: Rules): Option<Reason>
  {
    if e.provisional || e.platform == Some("provisional") then Some(Provisional)
    else if e.platform.Some? && e.platform.value !in rules.platforms then Some(Platform)
    else if name in rules.banned then Some(Banned)
    else None
  }

  /** The Vulkan extensions that nothing rules out from the start, and the reasons of the others. */
  function Chosen(exts: Extensions, rules: Rules): (s: set<string>)
    ensures s <= exts.Keys
  {
    set name | name in exts && exts[name].vulkan && RuledOut(name, exts[name], rules).None?
  }

  function RuledOutAll(exts: Extensions, rules: Rules): (r: map<string, Reason>)
    ensures r.Keys <= exts.Keys
  {
    map name | name in exts && exts[name].vulkan && RuledOut(name, exts[name], rules).Some? ::
      RuledOut(name, exts[name], rules).value
  }

  /**
   * A Vulkan extension starts out for the first of these that applies, and in where none does: it is
   * provisional, it is for a platform that is not allowed, it is banned. No other extension is on either side.
   */
  lemma StartsExactly(exts: Extensions, rules: Rules, name: string)
    ensures var yes, out := Chosen(exts, rules), RuledOutAll(exts, rules);
            if name !in exts || !exts[name].vulkan then name !in yes && name !in out
            else
              var provisional := exts[name].provisional || exts[name].platform == Some("provisional");
              var foreign := exists p :: exts[name].platform == Some(p) && p !in rules.platforms;
              && (name in yes <==> !provisional && !foreign && name !in rules.banned)
              && (name in out <==> name !in yes)
              && (provisional ==> out[name] == Provisional)
              && (foreign && !provisional ==> out[name] == Platform)
              && (name in rules.banned && !foreign && !provisional ==> out[name] == Banned)
  {
  }

  /**
   * A dependency on one name: a core version holds where it is a core feature, a Vulkan SC version never
   * does, anything else holds where it is included.
   */
  lemma OneDependency(exts: Extensions, rules: Rules, name: string, needs: string, included: set<string>)
    requires name in exts && exts[name].depends == [TName(needs)]
    ensures |needs| >= 11 && needs[..11] == "VK_VERSION_" ==>
              (Satisfied(exts, rules, name, included) <==> needs in rules.core)
    ensures |needs| >= 5 && needs[..5] == "VKSC_" ==> !Satisfied(exts, rules, name, included)
    ensures !("VK_VERSION_" <= needs) && !("VKSC_" <= needs) ==>
              (Satisfied(exts, rules, name, included) <==> needs in included)
  {
    PrintedMeans(Name(needs), TruthOf(rules, included));
    assert |needs| >= 5 && needs[..5] == "VKSC_" ==> needs[2] == 'S';
    assert "VK_VERSION_" <= needs ==> needs[2] == '_';
  }

  // ---------------------------------------------------------------- what was removed, in order

  datatype Removal = Removal(name: string, why: Reason)

  function Left(from: set<string>, h: seq<Removal>): set<string>
  {
    if h == [] then from else Left(from, h[..|h| - 1]) - {h[|h| - 1].name}
  }

  function Record(ruledOut: map<string, Reason>, h: seq<Removal>): map<string, Reason>
  {
    if h == [] then ruledOut else Record(ruledOut, h[..|h| - 1])[h[|h| - 1].name := h[|h| - 1].why]
  }

  /** Types may have been looked up before removal `j`: the set was closed then, and only type problems came after. */
  ghost predicate LookedUp(exts: Extensions, rules: Rules, from: set<string>, h: seq<Removal>, j: nat)
  {
    && j <= |h| && DependencyClosed(exts, rules, Left(from, h[..j]))
    && forall i :: j <= i < |h| ==> h[i].why == TypeProblem
  }

  /** A removal has a cause in the set as it is by then. */
  ghost predicate Caused(exts: Extensions, rules: Rules, problem: Problem, from: set<string>, h: seq<Removal>,
                         r: Removal)
  {
    && r.name in Left(from, h) && r.name in exts
    && match r.why
       case Depends => !Satisfied(exts, rules, r.name, Left(from, h))
       case TypeProblem => exists j: nat ::
           LookedUp(exts, rules, from, h, j) && problem(r.name, Left(from, h), Left(from, h[..j]))
       case _ => false
  }

  ghost predicate AllCaused(exts: Extensions, rules: Rules, problem: Problem, from: set<string>, h: seq<Removal>)
  {
    h == [] ||
    (AllCaused(exts, rules, problem, from, h[..|h| - 1]) &&
     Caused(exts, rules, problem, from, h[..|h| - 1], h[|h| - 1]))
  }

  lemma CausedOne(exts: Extensions, rules: Rules, problem: Problem, from: set<string>, h: seq<Removal>, r: Removal)
    requires AllCaused(exts, rules, problem, from, h) && Caused(exts, rules, problem, from, h, r)
    ensures AllCaused(exts, rules, problem, from, h + [r])
    ensures Left(from, h + [r]) == Left(from, h) - {r.name}
    ensures forall ruledOut :: Record(ruledOut, h + [r]) == Record(ruledOut, h)[r.name := r.why]
  {
    assert (h + [r])[..|h + [r]| - 1] == h;
    hide Caused;
  }

  lemma {:induction false} Sides(from: set<string>, ruledOut: map<string, Reason>, h: seq<Removal>)
    requires from !! ruledOut.Keys && forall r :: r in h ==> r.name in from
    ensures Left(from, h) !! Record(ruledOut, h).Keys
    ensures Left(from, h) + Record(ruledOut, h).Keys == from + ruledOut.Keys
  {
    if h != [] {
      assert h[|h| - 1] in h;
      Sides(from, ruledOut, h[..|h| - 1]);
    }
  }

  /** With no type problems, every removal left all that could be kept. */
  lemma {:induction false} DependsOnlyKeeps(exts: Extensions, rules: Rules, problem: Problem, from: set<string>,
                                            h: seq<Removal>)
    requires AllCaused(exts, rules, problem, from, h) && forall n, s, t :: !problem(n, s, t)
    ensures KeepsClosed(exts, rules, from, Left(from, h))
  {
    hide Satisfied;
    if h != [] {
      var init, last := h[..|h| - 1], h[|h| - 1];
      DependsOnlyKeeps(exts, rules, problem, from, init);
      RemovalKeeps(exts, rules, from, Left(from, init), last.name);
    }
  }

  // ---------------------------------------------------------------- the selection

  class Selection {
    const exts: Extensions
    const rules: Rules
    const problem: Problem
    var included: set<string>
    var excluded: map<string, Reason>
    ghost var removed: seq<Removal>

    constructor (exts: Extensions, rules: Rules, problem: Problem)
      ensures this.exts == exts && this.rules == rules && this.problem == problem
      ensures included == {} && excluded == map[]
    {
      this.exts, this.rules, this.problem := exts, rules, problem;
      included, excluded, removed := {}, map[], [];
    }

    /** Both sides are what the removals made of the start, and each removal had its cause. */
    ghost predicate Told()
      reads this
    {
      && included == Left(Chosen(exts, rules), removed)
      && excluded == Record(RuledOutAll(exts, rules), removed)
      && AllCaused(exts, rules, problem, Chosen(exts, rules), removed)
    }

    method Exclude(name: string, why: Reason)
      requires Told() && Caused(exts, rules, problem, Chosen(exts, rules), removed, Removal(name, why))
      modifies this
      ensures Told() && included == old(included) - {name} && removed == old(removed) + [Removal(name, why)]
    {
      CausedOne(exts, rules, problem, Chosen(exts, rules), removed, Removal(name, why));
      hide Chosen, RuledOutAll, Left, Record, AllCaused;
      excluded := excluded[name := why];
      included := included - {name};
      removed := removed + [Removal(name, why)];
    }

    /** The split before any dependency is looked at. */
    method Candidates()
      requires included == {} && excluded == map[]
      modifies this
      ensures Told() && removed == []
      ensures included == Chosen(exts, rules) && excluded == RuledOutAll(exts, rules)
    {
      hide RuledOut, Chosen, RuledOutAll, Split, Told;
      var rest := exts.Keys;
      removed := [];
      SplitStarts();
      while rest != {}
        invariant rest <= exts.Keys && removed == [] && Split(rest)
        decreases |rest|
      {
        var name :| name in rest;
        Place(name, rest);
        rest := rest - {name};
      }
      SplitEnds();
    }

    lemma SplitStarts()
      requires included == {} && excluded == map[]
      ensures Split(exts.Keys)
    {
      assert Chosen(exts, rules) - exts.Keys == {} && RuledOutAll(exts, rules) - exts.Keys == map[];
    }

    lemma SplitEnds()
      requires Split({}) && removed == []
      ensures Told() && included == Chosen(exts, rules) && excluded == RuledOutAll(exts, rules)
    {
      assert Chosen(exts, rules) - {} == Chosen(exts, rules) &&
             RuledOutAll(exts, rules) - {} == RuledOutAll(exts, rules);
    }

    /** All but `rest` are on their side. */
    ghost predicate Split(rest: set<string>)
      reads this
    {
      && included == Chosen(exts, rules) - rest
      && excluded == RuledOutAll(exts, rules) - rest
    }

    method Place(name: string, ghost rest: set<string>)
      requires Split(rest) && name in rest && rest <= exts.Keys
      modifies this`included, this`excluded
      ensures Split(rest - {name})
    {
      hide RuledOut;
      if exts[name].vulkan {
        var why := RuledOut(name, exts[name], rules);
        if why.Some? {
          excluded := excluded[name := why.value];
        } else {
          included := included + {name};
        }
      }
    }

    /** One pass over the included extensions, in any order, each against the set as it is by then. */
    method DependencyPass(ghost from: set<string>) returns (ok: bool, changed: bool)
      requires Told() && included <= exts.Keys && KeepsClosed(exts, rules, from, included)
      modifies this
      ensures Told() && included <= old(included) && KeepsClosed(exts, rules, from, included)
      ensures !ok ==> SomeMalformed(exts)
      ensures ok && !changed ==> included == old(included) && DependencyClosed(exts, rules, included)
      ensures ok && changed ==> included < old(included)
    {
      hide Told, KeepsClosed;
      changed := false;
      ok := true;
      var rest := included;
      while rest != {}
        invariant Told() && rest <= included <= old(included) && KeepsClosed(exts, rules, from, included)
        invariant changed <==> included != old(included)
        invariant !changed ==> forall name :: name in included && name !in rest ==>
                    Satisfied(exts, rules, name, included)
        decreases |rest|
      {
        var name :| name in rest;
        rest := rest - {name};
        var depends := exts[name].depends;
        if depends != [] {
          var truth := TruthOf(rules, included);
          var holds := Evaluate(depends, truth);
          MalformedForAll(depends, truth);
          if holds.None? {
            assert SomeMalformed(exts);
            ok := false;
            return;
          }
          if !holds.value {
            RemovalKeeps(exts, rules, from, included, name);
            DependsCaused(name);
            Exclude(name, Depends);
            changed := true;
          }
        }
      }
    }

    lemma DependsCaused(name: string)
      requires Told() && name in included && name in exts && !Satisfied(exts, rules, name, included)
      ensures Caused(exts, rules, problem, Chosen(exts, rules), removed, Removal(name, Depends))
    {
    }

    /** Passes until one changes nothing: what is left is the greatest dependency-closed subset. */
    method DependencyPhase() returns (ok: bool)
      requires Told() && included <= exts.Keys
      modifies this
      ensures Told() && included <= old(included)
      ensures if ok then GreatestClosed(exts, rules, old(included), included) else SomeMalformed(exts)
    {
      hide Told;
      ghost var from := included;
      var changed := true;
      while changed
        invariant Told() && included <= from && KeepsClosed(exts, rules, from, included)
        invariant !changed ==> DependencyClosed(exts, rules, included)
        decreases included, changed
      {
        ok, changed := DependencyPass(from);
        if !ok {
          return;
        }
      }
      ok := true;
    }

    /**
     * One pass over the included extensions: each goes exactly when it has a type problem in the set as it
     * is by then, its types looked up in the set as it was at the start.
     */
    method TypePass() returns (changed: bool)
      requires Told() && DependencyClosed(exts, rules, included)
      modifies this
      ensures Told() && included <= old(included)
      ensures changed <==> included != old(included)
      ensures forall name :: name in included ==> Kept(name, included, old(included))
      ensures old(removed) <= removed && ForTypes(removed, |old(removed)|, old(included))
    {
      hide Told, ForTypes, Looked, Kept;
      ghost var start := |removed|;
      changed := false;
      var available, rest := included, included;
      TypesLookedUp();
      while rest != {}
        invariant Told() && rest <= included <= available && available == old(included)
        invariant changed <==> included != available
        invariant forall name :: name in included && name !in rest ==> Kept(name, included, available)
        invariant old(removed) <= removed && Looked(removed, start, available) && ForTypes(removed, start, available)
        decreases |rest|
      {
        var name :| name in rest;
        rest := rest - {name};
        WasKept(name, included, included - {name}, available);
        if problem(name, included, available) {
          TypeCaused(name, start, available);
          StillForTypes(removed, name, start, available);
          Exclude(name, TypeProblem);
          changed := true;
        }
      }
    }

    /**
     * Types were looked up in `available` after `start` removals, and there has been nothing but type
     * problems since.
     */
    ghost predicate Looked(h: seq<Removal>, start: nat, available: set<string>)
    {
      LookedUp(exts, rules, Chosen(exts, rules), h, start) && Left(Chosen(exts, rules), h[..start]) == available
    }

    /** The removals from `start` on were for type problems, each in the set as it was by then. */
    ghost predicate ForTypes(h: seq<Removal>, start: nat, available: set<string>)
    {
      forall i :: start <= i < |h| ==>
        && h[i].why == TypeProblem && h[i].name in available
        && problem(h[i].name, Left(Chosen(exts, rules), h[..i]), available)
    }

    /** `name` had no type problem in the set as it was by then, which was at least `now`. */
    ghost predicate Kept(name: string, now: set<string>, available: set<string>)
    {
      exists s: set<string> :: now <= s <= available && !problem(name, s, available)
    }

    lemma WasKept(name: string, now: set<string>, less: set<string>, available: set<string>)
      requires less <= now <= available
      ensures problem(name, now, available) || Kept(name, now, available)
      ensures forall n :: Kept(n, now, available) ==> Kept(n, less, available)
    {
    }

    lemma AllKept(available: set<string>)
      requires forall name :: name in included ==> Kept(name, included, available)
      ensures included == available ==> forall name :: name in included ==> !problem(name, included, included)
    {
      if included == available {
        forall name | name in included
          ensures !problem(name, included, included)
        {
          assert Kept(name, included, available);
          var s: set<string> :| included <= s <= available && !problem(name, s, available);
          assert s == included;
        }
      }
    }

    lemma TypesLookedUp()
      requires Told() && DependencyClosed(exts, rules, included)
      ensures Looked(removed, |removed|, included) && ForTypes(removed, |removed|, included)
    {
      assert removed[..|removed|] == removed;
    }

    lemma TypeCaused(name: string, start: nat, available: set<string>)
      requires Told() && Looked(removed, start, available)
      requires name in included && name in exts && problem(name, included, available)
      ensures Caused(exts, rules, problem, Chosen(exts, rules), removed, Removal(name, TypeProblem))
      ensures included == Left(Chosen(exts, rules), removed)
    {
    }

    lemma StillForTypes(h: seq<Removal>, name: string, start: nat, available: set<string>)
      requires Looked(h, start, available) && ForTypes(h, start, available)
      requires name in available && problem(name, Left(Chosen(exts, rules), h), available)
      ensures Looked(h + [Removal(name, TypeProblem)], start, available)
      ensures ForTypes(h + [Removal(name, TypeProblem)], start, available)
    {
      hide Chosen, DependencyClosed;
      var more := h + [Removal(name, TypeProblem)];
      assert more[..start] == h[..start];
      assert forall i :: start <= i < |h| ==> more[..i] == h[..i];
      assert more[..|h|] == h;
    }

    /**
     * Both phases in turn until nothing changes. Every extension is on one side; one that is out was ruled
     * out from the start, or was removed for a cause in the set as it was by then; those that are in have
     * neither an unmet dependency nor a type problem. Where there are no type problems at all, as many
     * are kept as dependencies allow.
     */
    method SelectExtensions() returns (ok: bool)
      requires included == {} && excluded == map[]
      modifies this
      ensures Told() && included !! excluded.Keys
      ensures included + excluded.Keys == set name | name in exts && exts[name].vulkan
      ensures ok ==> DependencyClosed(exts, rules, included)
      ensures ok ==> forall name :: name in included ==> !problem(name, included, included)
      ensures ok && (forall n, s, t :: !problem(n, s, t)) ==>
                GreatestClosed(exts, rules, Chosen(exts, rules), included)
      ensures !ok ==> SomeMalformed(exts)
    {
      hide Told, Chosen, KeepsClosed;
      Candidates();
      var changed := true;
      while changed
        invariant Told() && included <= exts.Keys
        invariant !changed ==> DependencyClosed(exts, rules, included)
        invariant !changed ==> forall name :: name in included ==> !problem(name, included, included)
        decreases included, changed
      {
        ok := DependencyPhase();
        if !ok {
          ToldSides();
          return;
        }
        ghost var looked := included;
        changed := TypePass();
        AllKept(looked);
      }
      ok := true;
      ToldSides();
      if forall n, s, t :: !problem(n, s, t) {
        ToldGreatest();
      }
    }

    lemma {:induction false} CausedFrom(from: set<string>, h: seq<Removal>)
      requires AllCaused(exts, rules, problem, from, h)
      ensures (forall r :: r in h ==> r.name in from) && Left(from, h) <= from
    {
      if h != [] {
        CausedFrom(from, h[..|h| - 1]);
        assert h == h[..|h| - 1] + [h[|h| - 1]];
      }
    }

    lemma ToldSides()
      requires Told()
      ensures included !! excluded.Keys
      ensures included + excluded.Keys == set name | name in exts && exts[name].vulkan
    {
      CausedFrom(Chosen(exts, rules), removed);
      Sides(Chosen(exts, rules), RuledOutAll(exts, rules), removed);
      hide Left, Record, AllCaused, RuledOut;
    }

    lemma ToldGreatest()
      requires Told() && DependencyClosed(exts, rules, included) && forall n, s, t :: !problem(n, s, t)
      ensures GreatestClosed(exts, rules, Chosen(exts, rules), included)
    {
      CausedFrom(Chosen(exts, rules), removed);
      DependsOnlyKeeps(exts, rules, problem, Chosen(exts, rules), removed);
    }
  }
}
