/** Mutating files one at a time with a backup of each, whatever step the run is killed at. */
module CrashSafe {
  import opened Wrappers

  /** A row of the table: the file, and the text put in place of the one match of a pattern. */
  datatype Mutation = Mutation(path: string, pattern: string, replacement: string)

  // ---------------------------------------------------------------- one mutation's text

  predicate MatchesAt(text: string, pattern: string, i: nat)
  {
    i + |pattern| <= |text| && text[i..i + |pattern|] == pattern
  }

  /** The first match at or after `from`. */
  function Find(text: string, pattern: string, from: nat): (r: Option<nat>)
    ensures r.Some? ==> r.value >= from && MatchesAt(text, pattern, r.value)
    ensures r.Some? ==> forall i :: from <= i < r.value ==> !MatchesAt(text, pattern, i)
    ensures r.None? ==> forall i :: from <= i ==> !MatchesAt(text, pattern, i)
    decreases |text| - from
  {
    if from + |pattern| > |text| then None
    else if text[from..from + |pattern|] == pattern then Some(from)
    else Find(text, pattern, from + 1)
  }

  /** The text with its one match replaced; None where there is no match, or a second one after the first. */
  function Mutated(m: Mutation, text: string): Option<string>
  {
    var i :- Find(text, m.pattern, 0);
    if Find(text, m.pattern, i + if m.pattern == "" then 1 else |m.pattern|).Some? then None
    else Some(text[..i] + m.replacement + text[i + |m.pattern|..])
  }

  /** The pattern matches here, and nowhere else but where it would overlap this. */
  ghost predicate OnlyMatch(text: string, pattern: string, i: nat)
  {
    MatchesAt(text, pattern, i) && forall k: nat :: MatchesAt(text, pattern, k) ==> i == k || i < k < i + |pattern|
  }

  lemma NoneFrom(text: string, pattern: string, from: nat)
    requires forall k: nat :: from <= k ==> !MatchesAt(text, pattern, k)
    ensures Find(text, pattern, from).None?
  {
  }

  /** There is a mutant exactly where there is one such match, and it is the text with that replaced. */
  lemma MutatedExactly(m: Mutation, text: string)
    ensures Mutated(m, text).Some? <==> exists i: nat :: OnlyMatch(text, m.pattern, i)
    ensures forall i: nat :: OnlyMatch(text, m.pattern, i) ==>
              Mutated(m, text) == Some(text[..i] + m.replacement + text[i + |m.pattern|..])
  {
    var first := Find(text, m.pattern, 0);
    forall i: nat | OnlyMatch(text, m.pattern, i)
      ensures first == Some(i) && Mutated(m, text).Some?
    {
      assert MatchesAt(text, m.pattern, i);
      assert first == Some(i);
      NoneFrom(text, m.pattern, i + if m.pattern == "" then 1 else |m.pattern|);
    }
    if Mutated(m, text).Some? {
      assert OnlyMatch(text, m.pattern, first.value);
    }
  }

  // ---------------------------------------------------------------- the run, step by step

  /**
   * Where the program is; `Off` once it has ended or been killed. `original` is what it has read and holds,
   * and `raised` whether it is putting it back because of an exception, which then ends it.
   */
  datatype Phase =
      Off
    | Looking(i: nat)
    | Recovering(i: nat, original: string)
    | Recovered(i: nat)
    | Reading(j: nat)
    | Matched(j: nat, original: string, mutant: string)
    | Saved(j: nat, original: string, mutant: string)
    | Testing(j: nat, original: string)
    | Restoring(j: nat, original: string, raised: bool)
    | Discarding(j: nat, raised: bool)

  datatype State = State(files: map<string, string>, backups: map<string, string>, at: Phase)

  /** `Tick` is the program's own next step. A torn write leaves anything in the file and ends the run. */
  datatype Event = Start | Tick | Raise | Kill | TornFile(left: string) | TornBackup(left: string)

  /** The table; which of its rows are run. */
  datatype Plan = Plan(all: seq<Mutation>, selected: seq<Mutation>)

  /** The file the program is at. */
  function PathAt(plan: Plan, p: Phase): Option<string>
  {
    match p
    case Looking(i) => if i < |plan.all| then Some(plan.all[i].path) else None
    case Recovering(i, _) => if i < |plan.all| then Some(plan.all[i].path) else None
    case Recovered(i) => if i < |plan.all| then Some(plan.all[i].path) else None
    case Off => None
    case _ => if p.j < |plan.selected| then Some(plan.selected[p.j].path) else None
  }

  ghost predicate Enabled(plan: Plan, s: State, e: Event)
  {
    match e
    case Start => s.at.Off?
    case Tick => !s.at.Off?
    case Raise => !s.at.Off?
    case Kill => true
    case TornFile(_) => (s.at.Recovering? || s.at.Saved? || s.at.Restoring?) && PathAt(plan, s.at).Some?
    case TornBackup(_) => s.at.Matched? && PathAt(plan, s.at).Some?
  }

  function Ticked(plan: Plan, s: State): State
  {
    match PathAt(plan, s.at)
    case None => s.(at := if s.at.Looking? then Reading(0) else Off)
    case Some(path) =>
      match s.at
      case Off => s
      case Looking(i) => s.(at := if path in s.backups then Recovering(i, s.backups[path]) else Looking(i + 1))
      case Recovering(i, original) => s.(files := s.files[path := original], at := Recovered(i))
      case Recovered(i) => s.(backups := s.backups - {path}, at := Looking(i + 1))
      case Reading(j) =>
        if path !in s.files then s.(at := Off)
        else
          var text := s.files[path];
          s.(at := match Mutated(plan.selected[j], text)
                   case None => Reading(j + 1)
                   case Some(mutant) => Matched(j, text, mutant))
      case Matched(j, original, mutant) => s.(backups := s.backups[path := original], at := Saved(j, original, mutant))
      case Saved(j, original, mutant) => s.(files := s.files[path := mutant], at := Testing(j, original))
      case Testing(j, original) => s.(at := Restoring(j, original, false))
      case Restoring(j, original, raised) => s.(files := s.files[path := original], at := Discarding(j, raised))
      case Discarding(j, raised) => s.(backups := s.backups - {path}, at := if raised then Off else Reading(j + 1))
  }

  function Next(plan: Plan, s: State, e: Event): State
    requires Enabled(plan, s, e)
  {
    match e
    case Start => s.(at := Looking(0))
    case Tick => Ticked(plan, s)
    case Raise =>
      if s.at.Matched? || s.at.Saved? || s.at.Testing? then s.(at := Restoring(s.at.j, s.at.original, true))
      else s.(at := Off)
    case Kill => s.(at := Off)
    case TornFile(left) => s.(files := s.files[PathAt(plan, s.at).value := left], at := Off)
    case TornBackup(left) => s.(backups := s.backups[PathAt(plan, s.at).value := left], at := Off)
  }

  /** Backups are written whole, and a file is only ever torn while its backup is there. */
  ghost predicate Whole(plan: Plan, s: State, e: Event)
  {
    !e.TornBackup? && (e.TornFile? && PathAt(plan, s.at).Some? ==> PathAt(plan, s.at).value in s.backups)
  }

  // ---------------------------------------------------------------- what every step keeps

  ghost predicate Intact(files: map<string, string>, pristine: map<string, string>, path: string)
    requires path in pristine
  {
    path in files && files[path] == pristine[path]
  }

  /** Each file is as it was, or its backup is. */
  ghost predicate Safe(s: State, pristine: map<string, string>)
  {
    forall path :: path in pristine ==> Intact(s.files, pristine, path) || Intact(s.backups, pristine, path)
  }

  /** No backup holds anything but the original of a file of the table. */
  ghost predicate BackupsTrue(s: State, pristine: map<string, string>)
  {
    forall path :: path in s.backups ==> path in pristine && s.backups[path] == pristine[path]
  }

  /** Nothing to recover at this file. */
  ghost predicate Clean(s: State, pristine: map<string, string>, path: string)
    requires path in pristine
  {
    Intact(s.files, pristine, path) && path !in s.backups
  }

  ghost predicate CleanBut(s: State, pristine: map<string, string>, but: string)
  {
    forall path :: path in pristine && path != but ==> Clean(s, pristine, path)
  }

  ghost predicate AllClean(s: State, pristine: map<string, string>)
  {
    forall path :: path in pristine ==> Clean(s, pristine, path)
  }

  /** The table's files are the ones there are originals of. */
  ghost predicate Covers(plan: Plan, pristine: map<string, string>)
  {
    && (forall i :: 0 <= i < |plan.all| ==> plan.all[i].path in pristine)
    && (forall path :: path in pristine ==> exists i :: 0 <= i < |plan.all| && plan.all[i].path == path)
    && (forall j :: 0 <= j < |plan.selected| ==> plan.selected[j].path in pristine)
  }

  ghost predicate Swept(plan: Plan, s: State, pristine: map<string, string>, n: nat)
    requires n <= |plan.all|
  {
    forall i :: 0 <= i < n ==> plan.all[i].path in pristine && Clean(s, pristine, plan.all[i].path)
  }

  /** What is known at each place in the program. */
  ghost predicate PhaseGood(plan: Plan, s: State, pristine: map<string, string>)
  {
    match s.at
    case Off => true
    case Looking(i) => i <= |plan.all| && Swept(plan, s, pristine, i)
    case Recovering(i, original) =>
      && i < |plan.all| && Swept(plan, s, pristine, i) && plan.all[i].path in s.backups
      && plan.all[i].path in pristine && original == pristine[plan.all[i].path]
    case Recovered(i) =>
      && i < |plan.all| && Swept(plan, s, pristine, i)
      && plan.all[i].path in pristine && Intact(s.files, pristine, plan.all[i].path)
    case Reading(j) => AllClean(s, pristine)
    case Matched(j, original, mutant) =>
      && j < |plan.selected| && AllClean(s, pristine) && plan.selected[j].path in pristine
      && original == pristine[plan.selected[j].path] && Mutated(plan.selected[j], original) == Some(mutant)
    case Saved(j, original, mutant) =>
      && j < |plan.selected| && plan.selected[j].path in pristine && CleanBut(s, pristine, plan.selected[j].path)
      && original == pristine[plan.selected[j].path] && Mutated(plan.selected[j], original) == Some(mutant)
      && plan.selected[j].path in s.backups
    case Testing(j, original) =>
      && j < |plan.selected| && plan.selected[j].path in pristine && CleanBut(s, pristine, plan.selected[j].path)
      && original == pristine[plan.selected[j].path] && plan.selected[j].path in s.backups
      && plan.selected[j].path in s.files && Mutated(plan.selected[j], original) == Some(s.files[plan.selected[j].path])
    case Restoring(j, original, _) =>
      && j < |plan.selected| && plan.selected[j].path in pristine && CleanBut(s, pristine, plan.selected[j].path)
      && original == pristine[plan.selected[j].path]
    case Discarding(j, _) =>
      && j < |plan.selected| && plan.selected[j].path in pristine && CleanBut(s, pristine, plan.selected[j].path)
      && Intact(s.files, pristine, plan.selected[j].path)
  }

  ghost predicate Good(plan: Plan, s: State, pristine: map<string, string>)
  {
    Safe(s, pristine) && BackupsTrue(s, pristine) && PhaseGood(plan, s, pristine)
  }

  lemma TickSafe(plan: Plan, s: State, pristine: map<string, string>)
    requires Good(plan, s, pristine) && !s.at.Off?
    ensures Safe(Ticked(plan, s), pristine)
  {
    hide Mutated, Swept;
  }

  lemma TickBackups(plan: Plan, s: State, pristine: map<string, string>)
    requires Good(plan, s, pristine) && !s.at.Off?
    ensures BackupsTrue(Ticked(plan, s), pristine)
  {
    hide Mutated, Safe, Swept;
  }

  /** Between the sweep and the first mutation nothing is left to recover. */
  lemma SweptAll(plan: Plan, s: State, pristine: map<string, string>)
    requires Covers(plan, pristine) && Swept(plan, s, pristine, |plan.all|)
    ensures AllClean(s, pristine)
  {
  }

  lemma TickSweep(plan: Plan, s: State, pristine: map<string, string>)
    requires Covers(plan, pristine) && Good(plan, s, pristine)
    requires s.at.Looking? || s.at.Recovering? || s.at.Recovered?
    ensures PhaseGood(plan, Ticked(plan, s), pristine)
  {
    hide Mutated;
    if s.at.Looking? && s.at.i == |plan.all| {
      SweptAll(plan, s, pristine);
    }
  }

  lemma TickMutate(plan: Plan, s: State, pristine: map<string, string>)
    requires Covers(plan, pristine) && Good(plan, s, pristine)
    requires s.at.Reading? || s.at.Matched? || s.at.Saved?
    ensures PhaseGood(plan, Ticked(plan, s), pristine)
  {
    hide Mutated, Swept, Safe;
  }

  lemma TickRestore(plan: Plan, s: State, pristine: map<string, string>)
    requires Covers(plan, pristine) && Good(plan, s, pristine)
    requires s.at.Testing? || s.at.Restoring? || s.at.Discarding?
    ensures PhaseGood(plan, Ticked(plan, s), pristine)
  {
    hide Mutated, Swept, Safe;
  }

  lemma TickGood(plan: Plan, s: State, pristine: map<string, string>)
    requires Covers(plan, pristine) && Good(plan, s, pristine) && !s.at.Off?
    ensures Good(plan, Ticked(plan, s), pristine)
  {
    hide Ticked, PhaseGood, Safe, BackupsTrue, Covers;
    TickSafe(plan, s, pristine);
    TickBackups(plan, s, pristine);
    if s.at.Looking? || s.at.Recovering? || s.at.Recovered? {
      TickSweep(plan, s, pristine);
    } else if s.at.Reading? || s.at.Matched? || s.at.Saved? {
      TickMutate(plan, s, pristine);
    } else {
      TickRestore(plan, s, pristine);
    }
  }

  /** Every step of every run, killed or not, keeps each file or its backup as it was. */
  lemma StepGood(plan: Plan, s: State, e: Event, pristine: map<string, string>)
    requires Covers(plan, pristine) && Good(plan, s, pristine)
    requires Enabled(plan, s, e) && Whole(plan, s, e)
    ensures Good(plan, Next(plan, s, e), pristine)
  {
    hide Mutated, Ticked;
    if e.Tick? {
      TickGood(plan, s, pristine);
    }
  }

  ghost predicate Runs(plan: Plan, s: State, es: seq<Event>)
    decreases |es|
  {
    es == [] || (Enabled(plan, s, es[0]) && Whole(plan, s, es[0]) && Runs(plan, Next(plan, s, es[0]), es[1..]))
  }

  ghost function After(plan: Plan, s: State, es: seq<Event>): State
    requires Runs(plan, s, es)
    decreases |es|
  {
    if es == [] then s else After(plan, Next(plan, s, es[0]), es[1..])
  }

  lemma {:induction false} RunGood(plan: Plan, s: State, es: seq<Event>, pristine: map<string, string>)
    requires Covers(plan, pristine) && Good(plan, s, pristine) && Runs(plan, s, es)
    ensures Good(plan, After(plan, s, es), pristine)
    decreases |es|
  {
    hide Good, Next, Enabled, Whole, Covers;
    if es != [] {
      StepGood(plan, s, es[0], pristine);
      RunGood(plan, Next(plan, s, es[0]), es[1..], pristine);
    }
  }

  // ---------------------------------------------------------------- over whole runs

  /** Before the first run: every file as it was, and no backups. */
  function Fresh(pristine: map<string, string>): State
  {
    State(pristine, map[], Off)
  }

  lemma FreshGood(plan: Plan, pristine: map<string, string>)
    ensures Good(plan, Fresh(pristine), pristine)
  {
  }

  /**
   * Any number of runs, each killed anywhere: no original is ever lost, and every mutant under test was
   * made from one.
   */
  lemma NothingLost(plan: Plan, es: seq<Event>, pristine: map<string, string>)
    requires Covers(plan, pristine) && Runs(plan, Fresh(pristine), es)
    ensures var s := After(plan, Fresh(pristine), es);
            && Safe(s, pristine)
            && (s.at.Reading? ==> AllClean(s, pristine))
            && (s.at.Testing? ==>
                  s.at.j < |plan.selected|
                  && var m := plan.selected[s.at.j];
                  m.path in pristine && m.path in s.files && Mutated(m, pristine[m.path]) == Some(s.files[m.path])
                  && CleanBut(s, pristine, m.path))
  {
    FreshGood(plan, pristine);
    hide Fresh, Runs, After, Mutated;
    RunGood(plan, Fresh(pristine), es, pristine);
  }

  /** How many more of its own steps the program takes to have looked at every file. */
  function SweepLeft(plan: Plan, at: Phase): nat
  {
    match at
    case Looking(i) => if i <= |plan.all| then 3 * (|plan.all| - i) else 0
    case Recovering(i, _) => if i < |plan.all| then 3 * (|plan.all| - i) - 1 else 0
    case Recovered(i) => if i < |plan.all| then 3 * (|plan.all| - i) - 2 else 0
    case _ => 0
  }

  ghost predicate Sweeping(plan: Plan, s: State)
  {
    (s.at.Looking? && s.at.i <= |plan.all|) || ((s.at.Recovering? || s.at.Recovered?) && s.at.i < |plan.all|)
  }

  function Ticks(plan: Plan, s: State, n: nat): State
    decreases n
  {
    if n == 0 || s.at.Off? then s else Ticks(plan, Ticked(plan, s), n - 1)
  }

  lemma SweepStep(plan: Plan, s: State)
    requires Sweeping(plan, s)
    ensures var t := Ticked(plan, s);
            if s.at == Looking(|plan.all|) then t.at == Reading(0)
            else Sweeping(plan, t) && SweepLeft(plan, t.at) < SweepLeft(plan, s.at)
  {
  }

  lemma {:induction false} SweepEnds(plan: Plan, s: State) returns (n: nat)
    requires Sweeping(plan, s)
    ensures n <= SweepLeft(plan, s.at) + 1 && Ticks(plan, s, n).at == Reading(0)
    decreases SweepLeft(plan, s.at)
  {
    hide Ticked;
    SweepStep(plan, s);
    if s.at == Looking(|plan.all|) {
      n := 1;
      assert Ticks(plan, Ticked(plan, s), 0) == Ticked(plan, s);
    } else {
      n := SweepEnds(plan, Ticked(plan, s));
      n := n + 1;
    }
  }

  lemma {:induction false} TicksGood(plan: Plan, s: State, n: nat, pristine: map<string, string>)
    requires Covers(plan, pristine) && Good(plan, s, pristine)
    ensures Good(plan, Ticks(plan, s, n), pristine)
    decreases n
  {
    hide Good, Ticked, Covers;
    if n > 0 && !s.at.Off? {
      TickGood(plan, s, pristine);
      TicksGood(plan, Ticked(plan, s), n - 1, pristine);
    }
  }

  /**
   * However earlier runs ended, starting again puts every file back, before anything is read, in a
   * bounded number of steps.
   */
  lemma RecoveryRestoresAll(plan: Plan, es: seq<Event>, pristine: map<string, string>) returns (n: nat)
    requires Covers(plan, pristine) && Runs(plan, Fresh(pristine), es)
    requires After(plan, Fresh(pristine), es).at.Off?
    ensures n <= 3 * |plan.all| + 1
    ensures var s := Ticks(plan, Next(plan, After(plan, Fresh(pristine), es), Start), n);
            s.at == Reading(0) && AllClean(s, pristine)
  {
    hide Fresh, Runs, After, Mutated, Ticked, Ticks, Safe, BackupsTrue;
    FreshGood(plan, pristine);
    RunGood(plan, Fresh(pristine), es, pristine);
    var s := After(plan, Fresh(pristine), es);
    var started := Next(plan, s, Start);
    StepGood(plan, s, Start, pristine);
    n := SweepEnds(plan, started);
    TicksGood(plan, started, n, pristine);
  }

  // ---------------------------------------------------------------- a run that nothing breaks off

  lemma MoreTicks(plan: Plan, s: State, n: nat)
    requires n > 0 && !s.at.Off?
    ensures Ticks(plan, s, n) == Ticks(plan, Ticked(plan, s), n - 1)
  {
  }

  /**
   * A row with no mutant is passed over. Any other is under test three steps on, with a backup of the
   * original and nothing else changed, and six steps on the tree is as it was and the next row's turn.
   */
  lemma RowTested(plan: Plan, s: State, pristine: map<string, string>)
    requires AllClean(s, pristine) && s.at.Reading? && s.at.j < |plan.selected|
    requires plan.selected[s.at.j].path in pristine
    ensures var j, m := s.at.j, plan.selected[s.at.j];
            match Mutated(m, pristine[m.path])
            case None => Ticks(plan, s, 1) == s.(at := Reading(j + 1))
            case Some(mutant) =>
              && Ticks(plan, s, 3) == State(s.files[m.path := mutant], s.backups[m.path := pristine[m.path]],
                                            Testing(j, pristine[m.path]))
              && Ticks(plan, s, 6) == s.(at := Reading(j + 1))
  {
    hide Mutated, Ticked, Ticks, AllClean;
    RowSteps(plan, s, pristine);
    var s1 := Ticked(plan, s);
    MoreTicks(plan, s, 1);
    if s1.at.Matched? {
      var s2 := Ticked(plan, s1);
      var s3 := Ticked(plan, s2);
      var s4 := Ticked(plan, s3);
      var s5 := Ticked(plan, s4);
      MoreTicks(plan, s, 3);
      MoreTicks(plan, s1, 2);
      MoreTicks(plan, s2, 1);
      MoreTicks(plan, s, 6);
      MoreTicks(plan, s1, 5);
      MoreTicks(plan, s2, 4);
      MoreTicks(plan, s3, 3);
      MoreTicks(plan, s4, 2);
      MoreTicks(plan, s5, 1);
      NoTicks(plan, Ticked(plan, s5));
      NoTicks(plan, s3);
    }
    NoTicks(plan, s1);
  }

  lemma NoTicks(plan: Plan, s: State)
    ensures Ticks(plan, s, 0) == s
  {
  }

  lemma RowSteps(plan: Plan, s: State, pristine: map<string, string>)
    requires AllClean(s, pristine) && s.at.Reading? && s.at.j < |plan.selected|
    requires plan.selected[s.at.j].path in pristine
    ensures var j, m, s1 := s.at.j, plan.selected[s.at.j], Ticked(plan, s);
            match Mutated(m, pristine[m.path])
            case None => s1 == s.(at := Reading(j + 1))
            case Some(mutant) =>
              var original := pristine[m.path];
              var s2 := Ticked(plan, s1);
              var s3 := Ticked(plan, s2);
              var s4 := Ticked(plan, s3);
              var s5 := Ticked(plan, s4);
              && s1 == s.(at := Matched(j, original, mutant))
              && s2 == State(s.files, s.backups[m.path := original], Saved(j, original, mutant))
              && s3 == State(s.files[m.path := mutant], s.backups[m.path := original], Testing(j, original))
              && s4 == s3.(at := Restoring(j, original, false))
              && s5 == State(s.files, s.backups[m.path := original], Discarding(j, false))
              && Ticked(plan, s5) == s.(at := Reading(j + 1))
  {
    hide Mutated;
    var m := plan.selected[s.at.j];
    assert Clean(s, pristine, m.path);
    match Mutated(m, pristine[m.path])
    case None =>
    case Some(mutant) =>
      var original := pristine[m.path];
      assert s.files[m.path := mutant][m.path := original] == s.files;
      assert s.backups[m.path := original] - {m.path} == s.backups;
  }

  lemma {:induction false} TicksAdd(plan: Plan, s: State, a: nat, b: nat)
    ensures Ticks(plan, s, a + b) == Ticks(plan, Ticks(plan, s, a), b)
    decreases a
  {
    hide Ticked;
    if a > 0 && !s.at.Off? {
      TicksAdd(plan, Ticked(plan, s), a - 1, b);
    }
  }

  /** From any row on, every one has its turn, and the program ends with the tree as it was. */
  lemma {:induction false} RunEnds(plan: Plan, s: State, pristine: map<string, string>) returns (n: nat)
    requires Covers(plan, pristine) && AllClean(s, pristine)
    requires s.at.Reading? && s.at.j <= |plan.selected|
    ensures n <= 6 * (|plan.selected| - s.at.j) + 1 && Ticks(plan, s, n) == s.(at := Off)
    decreases |plan.selected| - s.at.j
  {
    hide Mutated, Ticks, AllClean;
    if s.at.j == |plan.selected| {
      n := 1;
      MoreTicks(plan, s, 1);
      NoTicks(plan, Ticked(plan, s));
    } else {
      RowTested(plan, s, pristine);
      hide Ticked;
      var m := plan.selected[s.at.j];
      var first := if Mutated(m, pristine[m.path]).None? then 1 else 6;
      var next := s.(at := Reading(s.at.j + 1));
      CleanWherever(s, next, pristine);
      n := RunEnds(plan, next, pristine);
      TicksAdd(plan, s, first, n);
      n := first + n;
    }
  }

  lemma CleanWherever(s: State, t: State, pristine: map<string, string>)
    requires AllClean(s, pristine) && s.files == t.files && s.backups == t.backups
    ensures AllClean(t, pristine)
  {
  }

  /** An exception from the backup to the tests' end puts the file back, discards the backup and ends the run. */
  lemma RaiseRestores(plan: Plan, s: State, pristine: map<string, string>)
    requires Covers(plan, pristine) && Good(plan, s, pristine)
    requires s.at.Matched? || s.at.Saved? || s.at.Testing?
    ensures var t := Ticks(plan, Next(plan, s, Raise), 2); t.at == Off && AllClean(t, pristine)
  {
    hide Next, Ticked, Ticks, Good, Covers, AllClean;
    RaiseSteps(plan, s, pristine);
    var s1 := Next(plan, s, Raise);
    var s2 := Ticked(plan, s1);
    MoreTicks(plan, s1, 2);
    MoreTicks(plan, s2, 1);
    NoTicks(plan, Ticked(plan, s2));
  }

  lemma RaiseSteps(plan: Plan, s: State, pristine: map<string, string>)
    requires Covers(plan, pristine) && Good(plan, s, pristine)
    requires s.at.Matched? || s.at.Saved? || s.at.Testing?
    ensures var s1 := Next(plan, s, Raise);
            var s2 := Ticked(plan, s1);
            var s3 := Ticked(plan, s2);
            !s1.at.Off? && !s2.at.Off? && s3.at == Off && AllClean(s3, pristine)
  {
    hide Mutated, Swept, Safe, Covers;
  }

  // ---------------------------------------------------------------- what whole writes are needed for

  /** A run that is recovering from one torn backup: it has not come to that file yet, or has written it over. */
  ghost predicate Doomed(plan: Plan, s: State, left: string, path: string)
  {
    && s.backups.Keys <= {path}
    && match s.at
       case Looking(i) =>
         if path in s.backups then s.backups[path] == left && forall k :: 0 <= k < i && k < |plan.all| ==>
             plan.all[k].path != path
         else path in s.files && s.files[path] == left
       case Recovering(i, original) => i < |plan.all| && plan.all[i].path == path && original == left
       case Recovered(i) => i < |plan.all| && plan.all[i].path == path && path in s.files && s.files[path] == left
       case Reading(_) => path in s.files && s.files[path] == left
       case _ => false
  }

  lemma DoomedStep(plan: Plan, s: State, left: string, path: string)
    requires Sweeping(plan, s) && Doomed(plan, s, left, path)
    requires exists i :: 0 <= i < |plan.all| && plan.all[i].path == path
    ensures Doomed(plan, Ticked(plan, s), left, path)
  {
    hide Mutated;
    if s.at.Looking? && s.at.i < |plan.all| && plan.all[s.at.i].path in s.backups {
      assert plan.all[s.at.i].path == path;
    }
  }

  lemma {:induction false} DoomedEnds(plan: Plan, s: State, left: string, path: string) returns (n: nat)
    requires Sweeping(plan, s) && Doomed(plan, s, left, path)
    requires exists i :: 0 <= i < |plan.all| && plan.all[i].path == path
    ensures n <= SweepLeft(plan, s.at) + 1
    ensures var t := Ticks(plan, s, n); t.at == Reading(0) && path in t.files && t.files[path] == left
    decreases SweepLeft(plan, s.at)
  {
    SweepStep(plan, s);
    DoomedStep(plan, s, left, path);
    hide Ticked;
    if s.at == Looking(|plan.all|) {
      n := 1;
      assert Ticks(plan, Ticked(plan, s), 0) == Ticked(plan, s);
    } else {
      n := DoomedEnds(plan, Ticked(plan, s), left, path);
      n := n + 1;
    }
  }

  /**
   * A backup torn before its file is touched is taken for the original: the file is intact when the run
   * ends, and the next one writes what was left over it before it reads anything.
   */
  lemma TornBackupLosesFile(plan: Plan, s: State, pristine: map<string, string>, left: string,
                            path: string) returns (n: nat)
    requires Covers(plan, pristine) && Good(plan, s, pristine)
    requires s.at.Matched? && PathAt(plan, s.at) == Some(path)
    ensures n <= 3 * |plan.all| + 1
    ensures var torn := Next(plan, s, TornBackup(left));
            var after := Ticks(plan, Next(plan, torn, Start), n);
            && Intact(torn.files, pristine, path)
            && after.at == Reading(0) && path in after.files && after.files[path] == left
  {
    hide Mutated;
    var torn := Next(plan, s, TornBackup(left));
    assert torn.backups.Keys <= {path};
    n := DoomedEnds(plan, Next(plan, torn, Start), left, path);
  }

  /** A file torn while it has no backup is lost: nothing holds its original any more. */
  lemma TornFileLoses(plan: Plan, s: State, pristine: map<string, string>, left: string, path: string)
    requires Covers(plan, pristine) && Good(plan, s, pristine)
    requires Enabled(plan, s, TornFile(left)) && PathAt(plan, s.at) == Some(path)
    ensures path in pristine
    ensures left != pristine[path] ==> (Safe(Next(plan, s, TornFile(left)), pristine) <==> path in s.backups)
  {
    hide Mutated, Swept;
    var torn := Next(plan, s, TornFile(left));
    if path !in s.backups && left != pristine[path] {
      assert !Intact(torn.files, pristine, path) && !Intact(torn.backups, pristine, path);
    }
  }

  // ---------------------------------------------------------------- an unbroken run, in place

  /** Files the table does not name are not touched. */
  ghost predicate Others(files: map<string, string>, was: map<string, string>, pristine: map<string, string>)
  {
    forall path :: path in was && path !in pristine ==> path in files && files[path] == was[path]
  }

  /** The working tree: the files, and the backups beside them. */
  class Tree {
    var files: map<string, string>
    var backups: map<string, string>

    constructor (files: map<string, string>, backups: map<string, string>)
      ensures this.files == files && this.backups == backups
    {
      this.files, this.backups := files, backups;
    }

    ghost function Now(): State
      reads this
    {
      State(files, backups, Off)
    }

    /** However earlier runs ended, every file is put back and every backup is gone. */
    method RestoreStaleBackups(plan: Plan, ghost pristine: map<string, string>)
      requires Covers(plan, pristine) && Safe(Now(), pristine) && BackupsTrue(Now(), pristine)
      modifies this
      ensures AllClean(Now(), pristine)
      ensures Others(files, old(files), pristine)
    {
      hide Safe, BackupsTrue, Clean, AllClean;
      for i := 0 to |plan.all|
        invariant Safe(Now(), pristine) && BackupsTrue(Now(), pristine) && Swept(plan, Now(), pristine, i)
        invariant Others(files, old(files), pristine)
      {
        RestoreOne(plan.all[i].path, pristine);
      }
      SweptAll(plan, Now(), pristine);
    }

    method RestoreOne(path: string, ghost pristine: map<string, string>)
      requires path in pristine && Safe(Now(), pristine) && BackupsTrue(Now(), pristine)
      modifies this
      ensures Safe(Now(), pristine) && BackupsTrue(Now(), pristine) && Clean(Now(), pristine, path)
      ensures forall p :: p in pristine && old(Clean(Now(), pristine, p)) ==> Clean(Now(), pristine, p)
      ensures Others(files, old(files), pristine)
    {
      if path in backups {
        var original := backups[path];
        files := files[path := original];
        backups := backups - {path};
      }
    }

    /** One row: its mutant is what the tests are run against, and afterwards nothing is left of it. */
    method MutateOne(m: Mutation, ghost pristine: map<string, string>) returns (tested: Option<string>)
      requires AllClean(Now(), pristine) && m.path in pristine
      modifies this
      ensures tested == Mutated(m, pristine[m.path])
      ensures files == old(files) && backups == old(backups)
    {
      hide Mutated;
      assert Clean(Now(), pristine, m.path);
      var original := files[m.path];
      var mutant := Mutated(m, original);
      if mutant.None? {
        return None;
      }
      backups := backups[m.path := original];
      files := files[m.path := mutant.value];
      tested := Some(files[m.path]);
      files := files[m.path := original];
      backups := backups - {m.path};
    }

    /** Every selected row, each against the original text. */
    method MutateAll(plan: Plan, ghost pristine: map<string, string>) returns (tested: seq<Option<string>>)
      requires Covers(plan, pristine) && AllClean(Now(), pristine)
      modifies this
      ensures files == old(files) && backups == old(backups) && |tested| == |plan.selected|
      ensures forall j :: 0 <= j < |tested| ==> tested[j] == Mutated(plan.selected[j], pristine[plan.selected[j].path])
    {
      hide Mutated;
      tested := [];
      for j := 0 to |plan.selected|
        invariant files == old(files) && backups == old(backups) && |tested| == j && AllClean(Now(), pristine)
        invariant forall k :: 0 <= k < j ==> tested[k] == Mutated(plan.selected[k], pristine[plan.selected[k].path])
      {
        var t := MutateOne(plan.selected[j], pristine);
        tested := tested + [t];
      }
    }
  }
}
