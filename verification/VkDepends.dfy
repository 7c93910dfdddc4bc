/** `depends` expressions: names joined by '+' (and, binding tighter) and ',' (or), with parentheses. */
module VkDepends {
  import opened Wrappers

  datatype Token = TName(name: string) | TPlus | TComma | TOpen | TClose

  /** Which names hold. Any token in an atom's place is looked up as a name. */
  type Truth = string -> bool

  function Text(t: Token): string
  {
    match t
    case TName(s) => s
    case TPlus => "+"
    case TComma => ","
    case TOpen => "("
    case TClose => ")"
  }

  // ---------------------------------------------------------------- what the parser computes

  /** A truth value and the tokens after it; None where the parser raises. */
  type Parse = Option<(bool, seq<Token>)>

  function ParseAtom(ts: seq<Token>, truth: Truth): (r: Parse)
    ensures r.Some? ==> |r.value.1| < |ts|
    decreases |ts|, 0
  {
    if ts == [] then None
    else if ts[0] == TOpen then
      var (v, rest) :- ParseAlternatives(ts[1..], truth);
      if rest == [] || rest[0] != TClose then None else Some((v, rest[1..]))
    else Some((truth(Text(ts[0])), ts[1..]))
  }

  function ParseConjunction(ts: seq<Token>, truth: Truth): (r: Parse)
    ensures r.Some? ==> |r.value.1| < |ts|
    decreases |ts|, 2
  {
    var (v, rest) :- ParseAtom(ts, truth);
    MoreConjuncts(v, rest, truth)
  }

  function MoreConjuncts(v: bool, ts: seq<Token>, truth: Truth): (r: Parse)
    ensures r.Some? ==> |r.value.1| <= |ts|
    decreases |ts|, 1
  {
    if ts != [] && ts[0] == TPlus then
      var (w, rest) :- ParseAtom(ts[1..], truth);
      MoreConjuncts(w && v, rest, truth)
    else Some((v, ts))
  }

  function ParseAlternatives(ts: seq<Token>, truth: Truth): (r: Parse)
    ensures r.Some? ==> |r.value.1| < |ts|
    decreases |ts|, 4
  {
    var (v, rest) :- ParseConjunction(ts, truth);
    MoreAlternatives(v, rest, truth)
  }

  function MoreAlternatives(v: bool, ts: seq<Token>, truth: Truth): (r: Parse)
    ensures r.Some? ==> |r.value.1| <= |ts|
    decreases |ts|, 3
  {
    if ts != [] && ts[0] == TComma then
      var (w, rest) :- ParseConjunction(ts[1..], truth);
      MoreAlternatives(w || v, rest, truth)
    else Some((v, ts))
  }

  /** A whole expression's value; None where it is malformed. */
  function Evaluated(ts: seq<Token>, truth: Truth): Option<bool>
  {
    var (v, rest) :- ParseAlternatives(ts, truth);
    if rest == [] then Some(v) else None
  }

  // ---------------------------------------------------------------- expressions and their meaning

  datatype Expr = Name(name: string) | All(left: Expr, right: Expr) | Any(left: Expr, right: Expr) | Group(e: Expr)

  predicate Holds(e: Expr, truth: Truth)
  {
    match e
    case Name(s) => truth(s)
    case All(l, r) => Holds(l, truth) && Holds(r, truth)
    case Any(l, r) => Holds(l, truth) || Holds(r, truth)
    case Group(x) => Holds(x, truth)
  }

  function Level(e: Expr): nat
  {
    match e
    case Any(_, _) => 0
    case All(_, _) => 1
    case _ => 2
  }

  function Print(e: Expr): (ts: seq<Token>)
    ensures ts != []
    decreases e, 0
  {
    match e
    case Name(s) => [TName(s)]
    case Group(x) => [TOpen] + (Print(x) + [TClose])
    case All(l, r) => PrintAt(l, 1) + ([TPlus] + PrintAt(r, 2))
    case Any(l, r) => PrintAt(l, 0) + ([TComma] + PrintAt(r, 1))
  }

  /** With parentheses only where the place binds tighter. */
  function PrintAt(e: Expr, level: nat): (ts: seq<Token>)
    ensures ts != []
    decreases e, 1
  {
    if Level(e) < level then [TOpen] + (Print(e) + [TClose]) else Print(e)
  }

  // ---------------------------------------------------------------- evaluating a printed expression

  lemma {:induction false} GroupReads(e: Expr, rest: seq<Token>, truth: Truth)
    ensures ParseAtom([TOpen] + (Print(e) + [TClose]) + rest, truth) == Some((Holds(e, truth), rest))
    decreases e, 2
  {
    var ts := [TOpen] + (Print(e) + [TClose]) + rest;
    var after := [TClose] + rest;
    assert ts[1..] == Print(e) + after;
    AlternativesRead(e, after, truth);
    assert after[1..] == rest;
  }

  lemma {:induction false} AtomReads(e: Expr, rest: seq<Token>, truth: Truth)
    ensures ParseAtom(PrintAt(e, 2) + rest, truth) == Some((Holds(e, truth), rest))
    decreases e, 3
  {
    match e
    case Name(s) => assert (PrintAt(e, 2) + rest)[1..] == rest;
    case Group(x) => GroupReads(x, rest, truth);
    case _ => GroupReads(e, rest, truth);
  }

  lemma {:induction false} ConjunctionReads(e: Expr, rest: seq<Token>, truth: Truth)
    ensures ParseConjunction(PrintAt(e, 1) + rest, truth) == MoreConjuncts(Holds(e, truth), rest, truth)
    decreases e, 4
  {
    match e
    case All(l, r) =>
      var tail := PrintAt(r, 2) + rest;
      var after := [TPlus] + tail;
      assert PrintAt(e, 1) + rest == PrintAt(l, 1) + after;
      ConjunctionReads(l, after, truth);
      AtomReads(r, rest, truth);
      assert after[1..] == tail;
    case Any(_, _) => GroupReads(e, rest, truth);
    case _ => AtomReads(e, rest, truth);
  }

  lemma LoneAtom(ts: seq<Token>, rest: seq<Token>, truth: Truth)
    requires ParseAtom(ts, truth).Some? && ParseAtom(ts, truth).value.1 == rest
    requires rest != [] ==> rest[0] != TPlus
    ensures ParseAlternatives(ts, truth) == MoreAlternatives(ParseAtom(ts, truth).value.0, rest, truth)
  {
    assert ParseConjunction(ts, truth) == Some((ParseAtom(ts, truth).value.0, rest));
  }

  lemma {:induction false} AlternativesRead(e: Expr, rest: seq<Token>, truth: Truth)
    requires rest != [] ==> rest[0] != TPlus
    ensures ParseAlternatives(Print(e) + rest, truth) == MoreAlternatives(Holds(e, truth), rest, truth)
    decreases e, 1
  {
    match e
    case Any(l, r) =>
      var tail := PrintAt(r, 1) + rest;
      var after := [TComma] + tail;
      assert Print(e) + rest == PrintAt(l, 0) + after && PrintAt(l, 0) == Print(l);
      AlternativesRead(l, after, truth);
      ConjunctionReads(r, rest, truth);
      assert after[1..] == tail;
    case All(l, r) =>
      var tail := PrintAt(r, 2) + rest;
      var after := [TPlus] + tail;
      assert Print(e) + rest == PrintAt(l, 1) + after;
      ConjunctionReads(l, after, truth);
      AtomReads(r, rest, truth);
      assert after[1..] == tail;
    case Group(x) =>
      GroupReads(x, rest, truth);
      LoneAtom(Print(e) + rest, rest, truth);
    case Name(s) =>
      assert (Print(e) + rest)[1..] == rest;
      LoneAtom(Print(e) + rest, rest, truth);
  }

  /** Every printed expression parses, and its value is its meaning. */
  lemma PrintedMeans(e: Expr, truth: Truth)
    ensures Evaluated(Print(e), truth) == Some(Holds(e, truth))
  {
    AlternativesRead(e, [], truth);
    assert Print(e) + [] == Print(e);
  }

  // ---------------------------------------------------------------- more truth, no less value

  ghost predicate Weaker(a: Truth, b: Truth)
  {
    forall s :: a(s) ==> b(s)
  }

  /** Same shape, and a value that only grows. */
  predicate Grows(a: Parse, b: Parse)
  {
    match a
    case None => b.None?
    case Some((v, rest)) => b.Some? && b.value.1 == rest && (v ==> b.value.0)
  }

  lemma {:induction false} AtomGrows(ts: seq<Token>, a: Truth, b: Truth)
    requires Weaker(a, b)
    ensures Grows(ParseAtom(ts, a), ParseAtom(ts, b))
    decreases |ts|, 0
  {
    if ts != [] && ts[0] == TOpen {
      AlternativesGrow(ts[1..], a, b);
    }
  }

  lemma {:induction false} ConjunctionGrows(ts: seq<Token>, a: Truth, b: Truth)
    requires Weaker(a, b)
    ensures Grows(ParseConjunction(ts, a), ParseConjunction(ts, b))
    decreases |ts|, 2
  {
    AtomGrows(ts, a, b);
    if ParseAtom(ts, a).Some? {
      var (v, rest) := ParseAtom(ts, a).value;
      MoreConjunctsGrow(v, ParseAtom(ts, b).value.0, rest, a, b);
    }
  }

  lemma {:induction false} MoreConjunctsGrow(v: bool, w: bool, ts: seq<Token>, a: Truth, b: Truth)
    requires Weaker(a, b) && (v ==> w)
    ensures Grows(MoreConjuncts(v, ts, a), MoreConjuncts(w, ts, b))
    decreases |ts|, 1
  {
    if ts != [] && ts[0] == TPlus {
      AtomGrows(ts[1..], a, b);
      if ParseAtom(ts[1..], a).Some? {
        var (x, rest) := ParseAtom(ts[1..], a).value;
        MoreConjunctsGrow(x && v, ParseAtom(ts[1..], b).value.0 && w, rest, a, b);
      }
    }
  }

  lemma {:induction false} AlternativesGrow(ts: seq<Token>, a: Truth, b: Truth)
    requires Weaker(a, b)
    ensures Grows(ParseAlternatives(ts, a), ParseAlternatives(ts, b))
    decreases |ts|, 4
  {
    ConjunctionGrows(ts, a, b);
    if ParseConjunction(ts, a).Some? {
      var (v, rest) := ParseConjunction(ts, a).value;
      MoreAlternativesGrow(v, ParseConjunction(ts, b).value.0, rest, a, b);
    }
  }

  lemma {:induction false} MoreAlternativesGrow(v: bool, w: bool, ts: seq<Token>, a: Truth, b: Truth)
    requires Weaker(a, b) && (v ==> w)
    ensures Grows(MoreAlternatives(v, ts, a), MoreAlternatives(w, ts, b))
    decreases |ts|, 3
  {
    if ts != [] && ts[0] == TComma {
      ConjunctionGrows(ts[1..], a, b);
      if ParseConjunction(ts[1..], a).Some? {
        var (x, rest) := ParseConjunction(ts[1..], a).value;
        MoreAlternativesGrow(x || v, ParseConjunction(ts[1..], b).value.0 || w, rest, a, b);
      }
    }
  }

  /** Whatever the tokens: whether they parse does not depend on the truth, and their value grows with it. */
  lemma EvaluatedMonotone(ts: seq<Token>, a: Truth, b: Truth)
    requires Weaker(a, b)
    ensures Evaluated(ts, a).Some? <==> Evaluated(ts, b).Some?
    ensures Evaluated(ts, a) == Some(true) ==> Evaluated(ts, b) == Some(true)
  {
    AlternativesGrow(ts, a, b);
  }

  /** Tokens that parse under no truth at all. */
  predicate Malformed(ts: seq<Token>)
  {
    Evaluated(ts, _ => false).None?
  }

  lemma MalformedForAll(ts: seq<Token>, truth: Truth)
    ensures Malformed(ts) <==> Evaluated(ts, truth).None?
  {
    EvaluatedMonotone(ts, _ => false, truth);
  }

  // ---------------------------------------------------------------- the parser

  class Evaluator {
    const toks: seq<Token>
    const truth: Truth
    var pos: nat

    constructor (toks: seq<Token>, truth: Truth)
      ensures this.toks == toks && this.truth == truth && pos == 0
    {
      this.toks, this.truth := toks, truth;
      pos := 0;
    }

    ghost predicate Did(r: Option<bool>, want: Parse)
      requires pos <= |toks|
      reads this
    {
      match want
      case None => r.None?
      case Some((v, rest)) => r == Some(v) && toks[pos..] == rest
    }

    method Atom() returns (r: Option<bool>)
      requires pos <= |toks|
      modifies this
      ensures old(pos) <= pos <= |toks| && (r.Some? ==> pos > old(pos))
      ensures Did(r, ParseAtom(toks[old(pos)..], truth))
      decreases |toks| - pos, 0
    {
      if pos == |toks| {
        return None;
      }
      ghost var here := toks[pos..];
      var tok := toks[pos];
      pos := pos + 1;
      assert here[1..] == toks[pos..];
      if tok == TOpen {
        var v :- Alternatives();
        if pos == |toks| || toks[pos] != TClose {
          return None;
        }
        ghost var close := toks[pos..];
        pos := pos + 1;
        assert close[1..] == toks[pos..];
        return Some(v);
      }
      return Some(truth(Text(tok)));
    }

    method Conjunction() returns (r: Option<bool>)
      requires pos <= |toks|
      modifies this
      ensures old(pos) <= pos <= |toks| && (r.Some? ==> pos > old(pos))
      ensures Did(r, ParseConjunction(toks[old(pos)..], truth))
      decreases |toks| - pos, 1
    {
      hide ParseAtom;
      ghost var want := ParseConjunction(toks[pos..], truth);
      var v :- Atom();
      while pos < |toks| && toks[pos] == TPlus
        invariant old(pos) < pos <= |toks| && want == MoreConjuncts(v, toks[pos..], truth)
        decreases |toks| - pos
      {
        ghost var here := toks[pos..];
        pos := pos + 1;
        assert here[1..] == toks[pos..];
        var w :- Atom();
        v := w && v;
      }
      return Some(v);
    }

    method Alternatives() returns (r: Option<bool>)
      requires pos <= |toks|
      modifies this
      ensures old(pos) <= pos <= |toks| && (r.Some? ==> pos > old(pos))
      ensures Did(r, ParseAlternatives(toks[old(pos)..], truth))
      decreases |toks| - pos, 2
    {
      hide ParseConjunction;
      ghost var want := ParseAlternatives(toks[pos..], truth);
      var v :- Conjunction();
      while pos < |toks| && toks[pos] == TComma
        invariant old(pos) < pos <= |toks| && want == MoreAlternatives(v, toks[pos..], truth)
        decreases |toks| - pos
      {
        ghost var here := toks[pos..];
        pos := pos + 1;
        assert here[1..] == toks[pos..];
        var w :- Conjunction();
        v := w || v;
      }
      return Some(v);
    }
  }

  /** 'and' binds tighter than 'or', on either side of it, and parentheses bind tighter than both. */
  lemma Binding(truth: Truth, a: string, b: string, c: string)
    ensures var (x, y, z) := (TName(a), TName(b), TName(c));
            && Evaluated([x], truth) == Some(truth(a))
            && Evaluated([x, TPlus, y], truth) == Some(truth(a) && truth(b))
            && Evaluated([x, TComma, y], truth) == Some(truth(a) || truth(b))
            && Evaluated([x, TPlus, y, TComma, z], truth) == Some((truth(a) && truth(b)) || truth(c))
            && Evaluated([x, TComma, y, TPlus, z], truth) == Some(truth(a) || (truth(b) && truth(c)))
            && Evaluated([TOpen, x, TComma, y, TClose, TPlus, z], truth) == Some((truth(a) || truth(b)) && truth(c))
  {
    var e, f, g := Name(a), Name(b), Name(c);
    PrintedMeans(e, truth);
    PrintedMeans(All(e, f), truth);
    PrintedMeans(Any(e, f), truth);
    PrintedMeans(Any(All(e, f), g), truth);
    PrintedMeans(Any(e, All(f, g)), truth);
    PrintedMeans(All(Group(Any(e, f)), g), truth);
    hide Evaluated;
    PrintsJoined(e, f);
    PrintsJoined(f, g);
    PrintsJoined(All(e, f), g);
    PrintsJoined(e, All(f, g));
    PrintsJoined(Group(Any(e, f)), g);
    PrintsLeaf(a, Any(e, f));
    PrintsLeaf(b, e);
    PrintsLeaf(c, e);
    hide Print, PrintAt, Holds;
    assert Print(All(e, f)) == [TName(a), TPlus, TName(b)] && Print(All(f, g)) == [TName(b), TPlus, TName(c)];
    assert Print(Any(e, f)) == [TName(a), TComma, TName(b)];
    assert Print(Any(All(e, f), g)) == [TName(a), TPlus, TName(b), TComma, TName(c)];
    assert Print(Any(e, All(f, g))) == [TName(a), TComma, TName(b), TPlus, TName(c)];
    assert Print(All(Group(Any(e, f)), g)) == [TOpen, TName(a), TComma, TName(b), TClose, TPlus, TName(c)];
    HoldsJoined(truth, a, b, c);
  }

  lemma PrintsLeaf(n: string, x: Expr)
    ensures Print(Name(n)) == [TName(n)] && Print(Group(x)) == [TOpen] + (Print(x) + [TClose])
  {
  }

  lemma HoldsJoined(truth: Truth, a: string, b: string, c: string)
    ensures var e, f, g := Name(a), Name(b), Name(c);
            && (Holds(e, truth) == truth(a)) && (Holds(All(e, f), truth) <==> truth(a) && truth(b))
            && (Holds(Any(e, f), truth) <==> truth(a) || truth(b))
            && (Holds(Any(All(e, f), g), truth) <==> (truth(a) && truth(b)) || truth(c))
            && (Holds(Any(e, All(f, g)), truth) <==> truth(a) || (truth(b) && truth(c)))
            && (Holds(All(Group(Any(e, f)), g), truth) <==> (truth(a) || truth(b)) && truth(c))
  {
    assert Holds(Any(Name(a), Name(b)), truth) <==> truth(a) || truth(b);
    assert Holds(All(Name(b), Name(c)), truth) <==> truth(b) && truth(c);
    assert Holds(All(Name(a), Name(b)), truth) <==> truth(a) && truth(b);
  }

  lemma PrintsJoined(l: Expr, r: Expr)
    requires Level(l) >= 1 && Level(r) >= 1
    ensures Print(Any(l, r)) == Print(l) + ([TComma] + Print(r))
    ensures Level(r) >= 2 ==> Print(All(l, r)) == Print(l) + ([TPlus] + Print(r))
  {
  }

  /** Punctuation where a name is wanted is looked up as one; an opening parenthesis by itself is malformed. */
  lemma PunctuationIsName(truth: Truth)
    ensures Evaluated([TPlus], truth) == Some(truth("+")) && Evaluated([TComma], truth) == Some(truth(","))
    ensures Evaluated([TClose], truth) == Some(truth(")")) && Evaluated([TOpen], truth) == None
  {
  }

  method Evaluate(toks: seq<Token>, truth: Truth) returns (r: Option<bool>)
    ensures r == Evaluated(toks, truth)
  {
    var ev := new Evaluator(toks, truth);
    assert ev.toks[0..] == toks;
    var v :- ev.Alternatives();
    if ev.pos != |toks| {
      return None;
    }
    return Some(v);
  }
}
