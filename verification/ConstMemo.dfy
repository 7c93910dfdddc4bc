/**
 * The evaluator that computes a constant while parsing it, and the memo of constants it asks for names:
 * values computed once, and marks on those being computed.
 */
module ConstMemo {
  import opened Wrappers
  import opened ConstExpr
  import opened ConstEvaluator
  import opened ConstModel

  /** Each constant's value, or None while it is being computed. */
  type Values = map<Key, Option<Value>>

  ghost predicate InProgress(values: Values, k: Key)
  {
    k in values && values[k].None?
  }

  /** Every remembered value is the constant's value. */
  ghost predicate Right(m: Model, values: Values)
    requires WellFormed(m)
  {
    forall k :: k in values && values[k].Some? ==> HasValue(m, k, values[k].value)
  }

  /** Nothing being computed has a value at this depth: so a constant that does needs none of them. */
  ghost predicate Blocked(m: Model, values: Values, n: nat)
    requires WellFormed(m)
  {
    forall k :: InProgress(values, k) ==> ValueIn(m, k, n).None?
  }

  /** Remembered values stay, and so do marks. */
  ghost predicate Extends(was: Values, now: Values)
  {
    forall k :: k in was ==> k in now && now[k] == was[k]
  }

  /** Nothing new is still being computed. */
  ghost predicate Settled(was: Values, now: Values)
  {
    forall k :: InProgress(now, k) ==> InProgress(was, k)
  }

  function KeysOf(d: Decl): set<Key>
  {
    (set e | e in d.enumerators :: Key(d.fq, e.name)) + (set c | c in d.consts :: Key(d.fq, c.name))
  }

  function AllKeys(m: Model): set<Key>
  {
    set q, k | q in m && k in KeysOf(m[q]) :: k
  }

  lemma KnownKeys(m: Model, k: Key)
    requires WellFormed(m) && !SourceOf(m, k).Unknown?
    ensures k in AllKeys(m)
  {
    var d := m[k.decl];
    if d.isEnum {
      var i := IndexOf(d.enumerators, k.name).value;
      assert d.enumerators[i] in d.enumerators;
    } else {
      assert FindConst(d.consts, k.name).value in d.consts;
    }
    assert k in KeysOf(d);
  }

  // ---------------------------------------------------------------- steps of the argument

  /** The least depth at which a constant has a value, at or below one at which it has. */
  lemma {:induction false} LeastFuel(m: Model, k: Key, n: nat) returns (least: nat)
    requires WellFormed(m) && ValueIn(m, k, n).Some?
    ensures 0 < least <= n && ValueIn(m, k, least).Some? && ValueIn(m, k, least - 1).None?
  {
    hide ValueIn;
    NothingAtZero(m, k);
    if ValueIn(m, k, n - 1).Some? {
      least := LeastFuel(m, k, n - 1);
    } else {
      least := n;
    }
  }

  lemma BlockedBelow(m: Model, values: Values, n: nat, fewer: nat)
    requires WellFormed(m) && Blocked(m, values, n) && fewer <= n
    ensures Blocked(m, values, fewer)
  {
    hide ValueIn;
    forall k | InProgress(values, k)
      ensures ValueIn(m, k, fewer).None?
    {
      if ValueIn(m, k, fewer).Some? {
        FuelMonotone(m, k, fewer, n);
      }
    }
  }

  /** At the least depth at which `k` has a value, `k` itself is still blocked one below. */
  lemma BlockedAtLeast(m: Model, values: Values, k: Key, n: nat) returns (i: nat)
    requires WellFormed(m) && Blocked(m, values, n) && ValueIn(m, k, n).Some?
    ensures Blocked(m, values[k := None], i) && ValueIn(m, k, i + 1).Some?
  {
    hide ValueIn;
    var least := LeastFuel(m, k, n);
    i := least - 1;
    BlockedBelow(m, values, n, i);
  }

  /** Tokens have no value at any depth at which nothing in progress has one. */
  ghost predicate TokensFail(m: Model, scope: QName, ts: seq<Token>, values: Values)
    requires WellFormed(m) && scope in m
  {
    forall n: nat :: Blocked(m, values, n) ==> EvalTokens(Names(m, scope, n), ts).None?
  }

  ghost predicate KeyFailsBlocked(m: Model, k: Key, values: Values)
    requires WellFormed(m)
  {
    forall n: nat :: Blocked(m, values, n) ==> ValueIn(m, k, n).None?
  }

  /**
   * If the initialiser of `k` fails while `k` is in progress, `k` has no value: where it had one, its
   * initialiser would need nothing that is in progress, itself included.
   */
  lemma ExprFailure(m: Model, k: Key, values: Values)
    requires WellFormed(m) && SourceOf(m, k).FromTokens?
    requires TokensFail(m, k.decl, SourceOf(m, k).toks, values[k := None])
    ensures KeyFailsBlocked(m, k, values)
  {
    hide Names, Wrap, Coerce, EvalTokens;
    forall n: nat | Blocked(m, values, n)
      ensures ValueIn(m, k, n).None?
    {
      if ValueIn(m, k, n).Some? {
        var i := BlockedAtLeast(m, values, k, n);
      }
    }
  }

  lemma PreviousFailure(m: Model, k: Key, values: Values)
    requires WellFormed(m) && SourceOf(m, k).AfterEnumerator?
    requires KeyFailsBlocked(m, SourceOf(m, k).previous, values[k := None])
    ensures KeyFailsBlocked(m, k, values)
  {
    hide Names, Wrap, Coerce, EvalTokens;
    forall n: nat | Blocked(m, values, n)
      ensures ValueIn(m, k, n).None?
    {
      if ValueIn(m, k, n).Some? {
        var i := BlockedAtLeast(m, values, k, n);
      }
    }
  }

  /** Replacing the mark on `k` by its value leaves the memo with no new marks. */
  lemma Finish(before: Values, during: Values, k: Key, r: Option<Value>)
    requires k !in before && r.Some?
    requires Extends(before[k := None], during) && Settled(before[k := None], during)
    ensures Extends(before, during[k := r]) && Settled(before, during[k := r])
  {
    forall x | x in before
      ensures x in during[k := r] && during[k := r][x] == before[x]
    {
      assert x in before[k := None];
    }
    forall x | InProgress(during[k := r], x)
      ensures InProgress(before, x)
    {
      assert InProgress(during, x);
    }
  }

  lemma UnknownFails(m: Model, k: Key, values: Values)
    requires WellFormed(m) && SourceOf(m, k).Unknown?
    ensures KeyFailsBlocked(m, k, values)
  {
  }

  lemma ExprSuccess(m: Model, k: Key, v: Value)
    requires WellFormed(m) && SourceOf(m, k).FromTokens? && Evaluates(m, k.decl, SourceOf(m, k).toks, v)
    ensures HasValue(m, k, Coerce(v, SourceOf(m, k).ty))
  {
    hide Names, Wrap, Coerce;
    var n: nat :| EvalTokens(Names(m, k.decl, n), SourceOf(m, k).toks) == Some(v);
    assert ValueIn(m, k, n + 1) == Some(Coerce(v, SourceOf(m, k).ty));
  }

  lemma PreviousSuccess(m: Model, k: Key, v: Value)
    requires WellFormed(m) && SourceOf(m, k).AfterEnumerator? && HasValue(m, SourceOf(m, k).previous, v)
    ensures HasValue(m, k, VInt(Wrap(v.Num() + 1, SourceOf(m, k).bits)))
  {
    hide Names, Wrap, Coerce;
    var n: nat :| ValueIn(m, SourceOf(m, k).previous, n) == Some(v);
    assert ValueIn(m, k, n + 1) == Some(VInt(Wrap(v.Num() + 1, SourceOf(m, k).bits)));
  }

  /** No enumerator has the name of another. */
  ghost predicate DistinctNames(es: seq<Enumerator>)
  {
    forall i, j :: 0 <= i < j < |es| ==> es[i].name != es[j].name
  }

  lemma {:induction false} IndexOfNamed(es: seq<Enumerator>, i: nat)
    requires DistinctNames(es) && i < |es|
    ensures IndexOf(es, es[i].name) == Some(i)
  {
    if i > 0 {
      IndexOfNamed(es[1..], i - 1);
    }
  }

  /** In a run of enumerators without initialisers, the n-th is n - i more than the i-th, wrapped once. */
  lemma {:induction false} ImplicitRun(m: Model, q: QName, i: nat, n: nat, v: Value)
    requires WellFormed(m) && q in m && m[q].isEnum && DistinctNames(m[q].enumerators) && i < n < |m[q].enumerators|
    requires forall k :: i < k <= n ==> m[q].enumerators[k].toks.None?
    requires HasValue(m, Key(q, m[q].enumerators[i].name), v)
    ensures HasValue(m, Key(q, m[q].enumerators[n].name), VInt(Wrap(v.Num() + (n - i), m[q].bits)))
    decreases n
  {
    hide HasValue, Wrap;
    var es, bits := m[q].enumerators, m[q].bits;
    IndexOfNamed(es, n);
    var k := Key(q, es[n].name);
    assert SourceOf(m, k) == AfterEnumerator(Key(q, es[n - 1].name), bits);
    if n == i + 1 {
      PreviousSuccess(m, k, v);
    } else {
      ImplicitRun(m, q, i, n - 1, v);
      PreviousSuccess(m, k, VInt(Wrap(v.Num() + (n - 1 - i), bits)));
      WrapStep(v.Num() + (n - 1 - i), bits);
    }
  }

  /** The first without one is 0, so the n-th of a run from the first is n, wrapped. */
  lemma ImplicitFromZero(m: Model, q: QName, n: nat)
    requires WellFormed(m) && q in m && m[q].isEnum && DistinctNames(m[q].enumerators) && n < |m[q].enumerators|
    requires forall k :: 0 <= k <= n ==> m[q].enumerators[k].toks.None?
    ensures HasValue(m, Key(q, m[q].enumerators[n].name), VInt(Wrap(n, m[q].bits)))
  {
    var es, bits := m[q].enumerators, m[q].bits;
    var first := Key(q, es[0].name);
    IndexOfNamed(es, 0);
    ZeroWrapped(bits);
    PrintedEvaluates(Names(m, q, 0), Lit(0));
    assert ValueIn(m, first, 1) == Some(VInt(0));
    if n > 0 {
      hide HasValue, Wrap, ValueIn;
      ImplicitRun(m, q, 0, n, VInt(0));
    }
  }

  /**
   * An enumerator with an initialiser is worth what its tokens evaluate to in the enum, kept to the enum's
   * width; a constant what its tokens evaluate to in its declaration, kept as its type. Nothing else is.
   */
  lemma InitialisedValue(m: Model, q: QName, i: nat, ts: seq<Token>, ty: ConstType, w: Value)
    requires WellFormed(m) && q in m
    requires if m[q].isEnum
             then DistinctNames(m[q].enumerators) && i < |m[q].enumerators| && m[q].enumerators[i].toks == Some(ts)
                  && ty == TInteger(m[q].bits)
             else i < |m[q].consts| && m[q].consts[i].toks == ts && m[q].consts[i].ty == ty
                  && forall j :: 0 <= j < i ==> m[q].consts[j].name != m[q].consts[i].name
    ensures var name := if m[q].isEnum then m[q].enumerators[i].name else m[q].consts[i].name;
            HasValue(m, Key(q, name), w) <==> exists v :: Evaluates(m, q, ts, v) && w == Coerce(v, ty)
  {
    var name := if m[q].isEnum then m[q].enumerators[i].name else m[q].consts[i].name;
    if m[q].isEnum {
      IndexOfNamed(m[q].enumerators, i);
    } else {
      FindNamed(m[q].consts, i);
    }
    assert SourceOf(m, Key(q, name)) == FromTokens(ts, ty);
    hide SourceOf, Coerce, EvalTokens, Names;
    if n: nat :| ValueIn(m, Key(q, name), n) == Some(w) {
      var v := EvalTokens(Names(m, q, n - 1), ts).value;
      assert Evaluates(m, q, ts, v);
    }
    if v :| Evaluates(m, q, ts, v) && w == Coerce(v, ty) {
      var n: nat :| EvalTokens(Names(m, q, n), ts) == Some(v);
      assert ValueIn(m, Key(q, name), n + 1) == Some(w);
    }
  }

  lemma {:induction false} FindNamed(cs: seq<Const>, i: nat)
    requires i < |cs| && forall j :: 0 <= j < i ==> cs[j].name != cs[i].name
    ensures FindConst(cs, cs[i].name) == Some(cs[i])
  {
    if i > 0 {
      assert cs[1..][i - 1] == cs[i];
      FindNamed(cs[1..], i - 1);
    }
  }

  lemma ZeroWrapped(bits: Bits)
    ensures Wrap(0, bits) == 0
  {
    WrapUnique(0, bits, 0, 0);
  }

  // ---------------------------------------------------------------- what the evaluator has left to do

  /** Something to parse, or the value and the tokens left that it came to. */
  datatype Goal =
    | AtUnary(ts: seq<Token>)
    | AtExpr(ts: seq<Token>, min: nat)
    | AtMore(left: Value, ts: seq<Token>, min: nat)
    | AtValue(v: Value, rest: seq<Token>)

  function Parsed(g: Goal, env: Env): Parse
  {
    match g
    case AtUnary(ts) => ParseUnary(env, ts)
    case AtExpr(ts, min) => ParseExpr(env, ts, min)
    case AtMore(left, ts, min) => ParseMore(env, left, ts, min)
    case AtValue(v, rest) => Some((v, rest))
  }

  /** What it comes to with names known to this depth. */
  function At(m: Model, scope: QName, g: Goal, n: nat): Parse
    requires WellFormed(m) && scope in m
  {
    Parsed(g, Names(m, scope, n))
  }

  /** One goal comes to what another does: at every depth at which it comes to anything, and from some depth on. */
  ghost predicate Leads(m: Model, scope: QName, g: Goal, h: Goal)
    requires WellFormed(m) && scope in m
  {
    && (forall n: nat :: At(m, scope, g, n).Some? ==> At(m, scope, g, n) == At(m, scope, h, n))
    && exists from: nat :: SameFrom(m, scope, g, h, from)
  }

  ghost predicate SameFrom(m: Model, scope: QName, g: Goal, h: Goal, from: nat)
    requires WellFormed(m) && scope in m
  {
    forall n: nat :: n >= from ==> At(m, scope, g, n) == At(m, scope, h, n)
  }

  /** A goal fails at every depth at which nothing in progress has a value. */
  ghost predicate Fails(m: Model, scope: QName, g: Goal, values: Values)
    requires WellFormed(m) && scope in m
  {
    forall n: nat :: Blocked(m, values, n) ==> At(m, scope, g, n).None?
  }

  /** Whenever one goal comes to anything, so does the other. */
  ghost predicate Needs(m: Model, scope: QName, g: Goal, part: Goal)
    requires WellFormed(m) && scope in m
  {
    forall n: nat :: At(m, scope, g, n).Some? ==> At(m, scope, part, n).Some?
  }

  lemma LeadsOn(m: Model, scope: QName, g: Goal, h: Goal, k: Goal)
    requires WellFormed(m) && scope in m && Leads(m, scope, g, h) && Leads(m, scope, h, k)
    ensures Leads(m, scope, g, k)
  {
    hide At;
    var i: nat :| SameFrom(m, scope, g, h, i);
    var j: nat :| SameFrom(m, scope, h, k, j);
    var from := if i < j then j else i;
    assert SameFrom(m, scope, g, k, from);
  }

  /** A part that fails, now or after other parts succeeded, fails the whole. */
  lemma PartFails(m: Model, scope: QName, g: Goal, part: Goal, was: Values, now: Values)
    requires WellFormed(m) && scope in m && Needs(m, scope, g, part) && Settled(was, now) && Fails(m, scope, part, now)
    ensures Fails(m, scope, g, was)
  {
    hide At;
    forall n: nat | Blocked(m, was, n)
      ensures At(m, scope, g, n).None?
    {
      assert Blocked(m, now, n);
    }
  }

  /** Two goals that come to the same whatever names mean. */
  lemma LeadsAlways(m: Model, scope: QName, g: Goal, h: Goal)
    requires WellFormed(m) && scope in m && forall env :: Parsed(g, env) == Parsed(h, env)
    ensures Leads(m, scope, g, h)
  {
    hide Parsed;
    assert SameFrom(m, scope, g, h, 0);
  }

  lemma FailsAlways(m: Model, scope: QName, g: Goal, values: Values)
    requires WellFormed(m) && scope in m && forall env :: Parsed(g, env).None?
    ensures Fails(m, scope, g, values)
  {
    hide Parsed;
  }

  /** What follows from what one part came to. */
  lemma LeadsThrough(m: Model, scope: QName, part: Goal, v: Value, rest: seq<Token>, g: Goal, h: Goal)
    requires WellFormed(m) && scope in m && Leads(m, scope, part, AtValue(v, rest))
    requires forall env :: Parsed(part, env) == Some((v, rest)) ==> Parsed(g, env) == Parsed(h, env)
    requires forall env :: Parsed(g, env).Some? ==> Parsed(part, env).Some?
    ensures Leads(m, scope, g, h)
  {
    hide Parsed;
    ValueIsValue(v, rest);
    var from: nat :| SameFrom(m, scope, part, AtValue(v, rest), from);
    forall n: nat
      ensures At(m, scope, g, n).Some? || n >= from ==> At(m, scope, g, n) == At(m, scope, h, n)
    {
      assert At(m, scope, AtValue(v, rest), n) == Some((v, rest));
      assert At(m, scope, part, n).Some? || n >= from ==> At(m, scope, part, n) == Some((v, rest));
    }
    assert SameFrom(m, scope, g, h, from);
  }

  lemma ValueIsValue(v: Value, rest: seq<Token>)
    ensures forall env :: Parsed(AtValue(v, rest), env) == Some((v, rest))
  {
  }

  lemma NeedsAlways(m: Model, scope: QName, g: Goal, part: Goal)
    requires WellFormed(m) && scope in m && forall env :: Parsed(g, env).Some? ==> Parsed(part, env).Some?
    ensures Needs(m, scope, g, part)
  {
    hide Parsed;
  }

  // ---------------------------------------------------------------- one step of each kind

  lemma NameLeads(m: Model, scope: QName, ts: seq<Token>, parts: QName, rest: seq<Token>, v: Value)
    requires WellFormed(m) && scope in m && ts != [] && ts[0].TId? && !IsKeyword(ts[0].text)
             && ParseName(ts) == (parts, rest)
    requires Resolve(m, scope, parts).Some? && HasValue(m, Resolve(m, scope, parts).value, v)
    ensures Leads(m, scope, AtUnary(ts), AtValue(v, rest))
  {
    var k := Resolve(m, scope, parts).value;
    var from: nat :| ValueIn(m, k, from) == Some(v);
    hide ValueIn, Resolve, ParseName;
    forall n: nat
      ensures At(m, scope, AtUnary(ts), n) == match ValueIn(m, k, n) case None => None case Some(w) => Some((w, rest))
      ensures ValueIn(m, k, n).Some? ==> ValueIn(m, k, n) == Some(v)
      ensures n >= from ==> ValueIn(m, k, n) == Some(v)
    {
      assert NameIn(m, scope, parts, n) == ValueIn(m, k, n);
      if n >= from {
        FuelMonotone(m, k, from, n);
      } else if ValueIn(m, k, n).Some? {
        FuelMonotone(m, k, n, from);
      }
    }
    assert SameFrom(m, scope, AtUnary(ts), AtValue(v, rest), from);
  }

  lemma NameFails(m: Model, scope: QName, ts: seq<Token>, parts: QName, rest: seq<Token>, values: Values)
    requires WellFormed(m) && scope in m && ts != [] && ts[0].TId? && !IsKeyword(ts[0].text)
             && ParseName(ts) == (parts, rest)
    requires var k := Resolve(m, scope, parts); k.Some? ==> KeyFailsBlocked(m, k.value, values)
    ensures Fails(m, scope, AtUnary(ts), values)
  {
    hide ValueIn, Resolve, ParseName;
    forall n: nat | Blocked(m, values, n)
      ensures At(m, scope, AtUnary(ts), n).None?
    {
      assert NameIn(m, scope, parts, n).None?;
    }
  }

  lemma ParenLeads(m: Model, scope: QName, ts: seq<Token>, v: Value, rest: seq<Token>)
    requires WellFormed(m) && scope in m && ts != [] && ts[0] == TSym(Open)
    requires Leads(m, scope, AtExpr(ts[1..], 0), AtValue(v, rest)) && rest != [] && rest[0] == TSym(Close)
    ensures Leads(m, scope, AtUnary(ts), AtValue(v, rest[1..]))
  {
    hide ParseExpr, Leads;
    LeadsThrough(m, scope, AtExpr(ts[1..], 0), v, rest, AtUnary(ts), AtValue(v, rest[1..]));
  }

  lemma ParenFails(m: Model, scope: QName, ts: seq<Token>, v: Value, rest: seq<Token>, values: Values)
    requires WellFormed(m) && scope in m && ts != [] && ts[0] == TSym(Open)
    requires Leads(m, scope, AtExpr(ts[1..], 0), AtValue(v, rest)) && (rest == [] || rest[0] != TSym(Close))
    ensures Fails(m, scope, AtUnary(ts), values)
  {
    hide ParseExpr;
    forall n: nat
      ensures At(m, scope, AtUnary(ts), n).None?
    {
      assert At(m, scope, AtValue(v, rest), n) == Some((v, rest));
      assert At(m, scope, AtExpr(ts[1..], 0), n) == ParseExpr(Names(m, scope, n), ts[1..], 0);
    }
  }

  lemma PrefixLeads(m: Model, scope: QName, ts: seq<Token>, op: UnaryOp, v: Value, rest: seq<Token>)
    requires WellFormed(m) && scope in m && ts != [] && ts[0].TSym? && AsUnary(ts[0].sym) == Some(op)
    requires Leads(m, scope, AtUnary(ts[1..]), AtValue(v, rest))
    ensures Leads(m, scope, AtUnary(ts), AtValue(ApplyUnary(op, v), rest))
  {
    hide ParseExpr, Leads, ApplyUnary;
    LeadsThrough(m, scope, AtUnary(ts[1..]), v, rest, AtUnary(ts), AtValue(ApplyUnary(op, v), rest));
  }

  lemma UnaryLeads(m: Model, scope: QName, ts: seq<Token>, min: nat, v: Value, rest: seq<Token>)
    requires WellFormed(m) && scope in m && Leads(m, scope, AtUnary(ts), AtValue(v, rest))
    ensures Leads(m, scope, AtExpr(ts, min), AtMore(v, rest, min))
  {
    hide ParseUnary, ParseMore, Leads;
    LeadsThrough(m, scope, AtUnary(ts), v, rest, AtExpr(ts, min), AtMore(v, rest, min));
  }

  lemma OperatorLeads(m: Model, scope: QName, left: Value, ts: seq<Token>, min: nat, op: BinaryOp, right: Value,
                      rest: seq<Token>)
    requires WellFormed(m) && scope in m && ts != [] && ts[0].TSym? && AsBinary(ts[0].sym) == Some(op)
             && Precedence(op) >= min
    requires Leads(m, scope, AtExpr(ts[1..], Precedence(op) + 1), AtValue(right, rest))
    ensures match ApplyBinary(op, left, right)
            case Some(v) => Leads(m, scope, AtMore(left, ts, min), AtMore(v, rest, min))
            case None => forall values :: Fails(m, scope, AtMore(left, ts, min), values)
  {
    hide ParseExpr, ApplyBinary, Precedence;
    var part, g := AtExpr(ts[1..], Precedence(op) + 1), AtMore(left, ts, min);
    match ApplyBinary(op, left, right)
    case Some(v) =>
      hide Leads;
      LeadsThrough(m, scope, part, right, rest, g, AtMore(v, rest, min));
    case None =>
      forall n: nat
        ensures At(m, scope, g, n).None?
      {
        assert At(m, scope, AtValue(right, rest), n) == Some((right, rest));
        assert At(m, scope, part, n) == ParseExpr(Names(m, scope, n), ts[1..], Precedence(op) + 1);
      }
  }

  /** Past the condition and the first alternative, the second is still needed. */
  lemma ColonNeeds(m: Model, scope: QName, left: Value, ts: seq<Token>, a: Value, rest: seq<Token>)
    requires WellFormed(m) && scope in m && ts != [] && ts[0] == TSym(Question)
    requires Leads(m, scope, AtExpr(ts[1..], 0), AtValue(a, rest)) && rest != [] && rest[0] == TSym(Colon)
    ensures Needs(m, scope, AtMore(left, ts, 0), AtExpr(rest[1..], 0))
  {
    hide ParseExpr;
    forall n: nat | At(m, scope, AtMore(left, ts, 0), n).Some?
      ensures At(m, scope, AtExpr(rest[1..], 0), n).Some?
    {
      assert At(m, scope, AtValue(a, rest), n) == Some((a, rest));
      assert At(m, scope, AtExpr(ts[1..], 0), n) == ParseExpr(Names(m, scope, n), ts[1..], 0);
    }
  }

  lemma NoColonFails(m: Model, scope: QName, left: Value, ts: seq<Token>, a: Value, rest: seq<Token>, values: Values)
    requires WellFormed(m) && scope in m && ts != [] && ts[0] == TSym(Question)
    requires Leads(m, scope, AtExpr(ts[1..], 0), AtValue(a, rest)) && (rest == [] || rest[0] != TSym(Colon))
    ensures Fails(m, scope, AtMore(left, ts, 0), values)
  {
    hide ParseExpr;
    forall n: nat
      ensures At(m, scope, AtMore(left, ts, 0), n).None?
    {
      assert At(m, scope, AtValue(a, rest), n) == Some((a, rest));
      assert At(m, scope, AtExpr(ts[1..], 0), n) == ParseExpr(Names(m, scope, n), ts[1..], 0);
    }
  }

  lemma ChoiceLeads(m: Model, scope: QName, left: Value, ts: seq<Token>, a: Value, middle: seq<Token>, b: Value,
                    rest: seq<Token>)
    requires WellFormed(m) && scope in m && ts != [] && ts[0] == TSym(Question)
    requires Leads(m, scope, AtExpr(ts[1..], 0), AtValue(a, middle)) && middle != [] && middle[0] == TSym(Colon)
    requires Leads(m, scope, AtExpr(middle[1..], 0), AtValue(b, rest))
    ensures Leads(m, scope, AtMore(left, ts, 0), AtMore(if left.Truth() then a else b, rest, 0))
  {
    hide ParseExpr;
    var first, second := AtExpr(ts[1..], 0), AtExpr(middle[1..], 0);
    var g, h := AtMore(left, ts, 0), AtMore(if left.Truth() then a else b, rest, 0);
    var i: nat :| SameFrom(m, scope, first, AtValue(a, middle), i);
    var j: nat :| SameFrom(m, scope, second, AtValue(b, rest), j);
    forall n: nat
      ensures At(m, scope, g, n).Some? || (n >= i && n >= j) ==> At(m, scope, g, n) == At(m, scope, h, n)
    {
      assert At(m, scope, first, n) == ParseExpr(Names(m, scope, n), ts[1..], 0);
      assert At(m, scope, second, n) == ParseExpr(Names(m, scope, n), middle[1..], 0);
      assert At(m, scope, AtValue(a, middle), n) == Some((a, middle)) &&
             At(m, scope, AtValue(b, rest), n) == Some((b, rest));
    }
    assert SameFrom(m, scope, g, h, if i < j then j else i);
  }

  lemma WholeEvaluates(m: Model, scope: QName, ts: seq<Token>, v: Value, rest: seq<Token>, values: Values)
    requires WellFormed(m) && scope in m && Leads(m, scope, AtExpr(ts, 0), AtValue(v, rest))
    ensures if rest == [] then Evaluates(m, scope, ts, v) else TokensFail(m, scope, ts, values)
  {
    hide ParseExpr;
    forall n: nat
      ensures At(m, scope, AtExpr(ts, 0), n) == ParseExpr(Names(m, scope, n), ts, 0)
      ensures At(m, scope, AtValue(v, rest), n) == Some((v, rest))
    {
    }
    if rest == [] {
      var from: nat :| SameFrom(m, scope, AtExpr(ts, 0), AtValue(v, rest), from);
      assert EvalTokens(Names(m, scope, from), ts) == Some(v);
    }
  }

  lemma WholeFails(m: Model, scope: QName, ts: seq<Token>, values: Values)
    requires WellFormed(m) && scope in m && Fails(m, scope, AtExpr(ts, 0), values)
    ensures TokensFail(m, scope, ts, values)
  {
    hide ParseExpr;
    forall n: nat | Blocked(m, values, n)
      ensures EvalTokens(Names(m, scope, n), ts).None?
    {
      assert At(m, scope, AtExpr(ts, 0), n) == ParseExpr(Names(m, scope, n), ts, 0);
    }
  }

  // ---------------------------------------------------------------- the memo and the evaluator

  class Memo {
    const m: Model
    var values: Values

    ghost predicate Valid()
      reads this
    {
      WellFormed(m) && Right(m, values)
    }

    constructor (m: Model)
      requires WellFormed(m)
      ensures Valid() && this.m == m && values == map[]
    {
      this.m := m;
      values := map[];
    }

    ghost function Left(): set<Key>
      reads this
    {
      AllKeys(m) - values.Keys
    }

    /** A sub-computation only adds to the memo, and leaves no mark behind unless it fails. */
    twostate predicate Grew(ok: bool)
      reads this
    {
      Extends(old(values), values) && (ok ==> Settled(old(values), values))
    }

    method ValueOf(k: Key) returns (r: Option<Value>)
      requires Valid()
      modifies this
      ensures Valid() && Grew(r.Some?)
      ensures if r.Some? then HasValue(m, k, r.value) else KeyFailsBlocked(m, k, old(values))
      decreases Left(), 0, 0
    {
      hide HasValue, ValueIn, AllKeys, Evaluates, TokensFail, Wrap, Coerce;
      if k in values {
        return values[k];
      }
      ghost var before := values;
      values := values[k := None];
      var source := SourceOf(m, k);
      match source {
        case Unknown =>
          UnknownFails(m, k, before);
          return None;
        case FromTokens(toks, ty) =>
          KnownKeys(m, k);
          assert k in AllKeys(m) - before.Keys && k !in Left();
          var v := Eval(toks, k.decl);
          if v.None? {
            ExprFailure(m, k, before);
            return None;
          }
          ExprSuccess(m, k, v.value);
          r := Some(Coerce(v.value, ty));
        case AfterEnumerator(previous, bits) =>
          KnownKeys(m, k);
          assert k in AllKeys(m) - before.Keys && k !in Left();
          var v := ValueOf(previous);
          if v.None? {
            PreviousFailure(m, k, before);
            return None;
          }
          PreviousSuccess(m, k, v.value);
          r := Some(VInt(Wrap(v.value.Num() + 1, bits)));
      }
      Finish(before, values, k, r);
      values := values[k := r];
    }

    /** A whole expression: every token must be consumed. */
    method Eval(toks: seq<Token>, scope: QName) returns (r: Option<Value>)
      requires Valid() && scope in m
      modifies this
      ensures Valid() && Grew(r.Some?)
      ensures if r.Some? then Evaluates(m, scope, toks, r.value) else TokensFail(m, scope, toks, old(values))
      decreases Left(), |toks| + 2, 0
    {
      hide Leads, Fails, Evaluates, TokensFail, Right;
      ghost var before := values;
      var ev := new Evaluator(this, toks, scope);
      assert ev.toks[0..] == toks;
      var v := ev.Expr(0);
      if v.None? {
        WholeFails(m, scope, toks, before);
        return None;
      }
      WholeEvaluates(m, scope, toks, v.value, ev.toks[ev.i..], before);
      r := if ev.i == |toks| then v else None;
    }

    /** From a memo with nothing in progress: the constant's value, or nothing exactly when it has none. */
    method Constant(k: Key) returns (r: Option<Value>)
      requires Valid() && forall x :: !InProgress(values, x)
      modifies this
      ensures Valid() && Extends(old(values), values)
      ensures r.Some? ==> HasValue(m, k, r.value) && forall x :: !InProgress(values, x)
      ensures r.None? ==> forall v :: !HasValue(m, k, v)
    {
      r := ValueOf(k);
    }
  }

  /** The cursor over one expression's tokens, in a scope. */
  class Evaluator {
    const memo: Memo
    const toks: seq<Token>
    const scope: QName
    var i: nat

    ghost predicate Valid()
      reads this, memo
    {
      i <= |toks| && memo.Valid() && scope in memo.m
    }

    constructor (memo: Memo, toks: seq<Token>, scope: QName)
      requires memo.Valid() && scope in memo.m
      ensures Valid() && this.memo == memo && this.toks == toks && this.scope == scope && i == 0
    {
      this.memo, this.toks, this.scope := memo, toks, scope;
      i := 0;
    }

    /** The goal comes to the value and the tokens after the cursor, or fails with what was in progress. */
    twostate predicate Came(g: Goal, new r: Option<Value>)
      requires Valid()
      reads this, memo
    {
      && memo.Grew(r.Some?)
      && if r.Some? then Leads(memo.m, scope, g, AtValue(r.value, toks[i..]))
        else Fails(memo.m, scope, g, old(memo.values))
    }

    /** The goal comes to what follows the cursor, with `r` on its left, or fails. */
    twostate predicate Continues(g: Goal, new r: Option<Value>, minPrec: nat)
      requires Valid()
      reads this, memo
    {
      && memo.Grew(r.Some?)
      && if r.Some? then Leads(memo.m, scope, g, AtMore(r.value, toks[i..], minPrec))
         else Fails(memo.m, scope, g, old(memo.values))
    }

    method Take(sym: Symbol) returns (ok: bool)
      requires Valid()
      modifies this
      ensures Valid()
      ensures ok == (old(i) < |toks| && toks[old(i)] == TSym(sym)) && i == old(i) + if ok then 1 else 0
    {
      ok := i < |toks| && toks[i] == TSym(sym);
      if ok {
        i := i + 1;
      }
    }

    method Expr(minPrec: nat) returns (r: Option<Value>)
      requires Valid()
      modifies this, memo
      ensures Valid() && i >= old(i) && (r.Some? ==> i > old(i))
      ensures Came(AtExpr(toks[old(i)..], minPrec), r)
      decreases memo.Left(), |toks| - i + 1, 2
    {
      hide Leads, Fails, Right, AsBinary, Precedence;
      ghost var start, before := i, memo.values;
      ghost var goal := AtExpr(toks[i..], minPrec);
      var left := UnaryOperand();
      if left.None? {
        ExprFails(memo.m, scope, toks[start..], minPrec, before);
        return None;
      }
      UnaryLeads(memo.m, scope, toks[start..], minPrec, left.value, toks[i..]);
      while true
        invariant Valid() && start < i && left.Some? && Extends(before, memo.values) && Settled(before, memo.values)
        invariant Leads(memo.m, scope, goal, AtMore(left.value, toks[i..], minPrec))
        decreases |toks| - i
      {
        ghost var at := AtMore(left.value, toks[i..], minPrec);
        if i == |toks| || !toks[i].TSym? {
          Ends(memo.m, scope, goal, left.value, toks[i..], minPrec);
          return left;
        }
        var sym := toks[i].sym;
        ghost var now := memo.values;
        if sym == Question && minPrec == 0 {
          left := Alternatives(left.value);
        } else {
          var op := AsBinary(sym);
          if op.None? || Precedence(op.value) < minPrec {
            Ends(memo.m, scope, goal, left.value, toks[i..], minPrec);
            return left;
          }
          left := RightOperand(left.value, minPrec);
        }
        if left.None? {
          LeadsFails(memo.m, scope, goal, at, before, now);
          return None;
        }
        LeadsOn(memo.m, scope, goal, at, AtMore(left.value, toks[i..], minPrec));
      }
    }

    method Alternatives(left: Value) returns (r: Option<Value>)
      requires Valid() && i < |toks| && toks[i] == TSym(Question)
      modifies this, memo
      ensures Valid() && i > old(i) && Continues(AtMore(left, toks[old(i)..], 0), r, 0)
      decreases memo.Left(), |toks| - i + 1, 0
    {
      hide Leads, Fails, Right;
      ghost var here, before := toks[i..], memo.values;
      i := i + 1;
      assert here[1..] == toks[i..];
      var a := Expr(0);
      if a.None? {
        FirstFails(memo.m, scope, left, here, before);
        return None;
      }
      ghost var colon, middle := toks[i..], memo.values;
      var ok := Take(Colon);
      if !ok {
        NoColonFails(memo.m, scope, left, here, a.value, colon, before);
        return None;
      }
      assert colon[1..] == toks[i..];
      ColonNeeds(memo.m, scope, left, here, a.value, colon);
      var b := Expr(0);
      if b.None? {
        PartFails(memo.m, scope, AtMore(left, here, 0), AtExpr(colon[1..], 0), before, middle);
        return None;
      }
      ChoiceLeads(memo.m, scope, left, here, a.value, colon, b.value, toks[i..]);
      return if left.Truth() then a else b;
    }

    method RightOperand(left: Value, minPrec: nat) returns (r: Option<Value>)
      requires Valid() && i < |toks| && toks[i].TSym? && AsBinary(toks[i].sym).Some?
               && Precedence(AsBinary(toks[i].sym).value) >= minPrec
      modifies this, memo
      ensures Valid() && i > old(i) && Continues(AtMore(left, toks[old(i)..], minPrec), r, minPrec)
      decreases memo.Left(), |toks| - i + 1, 0
    {
      hide Leads, Fails, Right, ApplyBinary, Precedence;
      ghost var here, before := toks[i..], memo.values;
      var op := AsBinary(toks[i].sym).value;
      i := i + 1;
      assert here[1..] == toks[i..];
      var right := Expr(Precedence(op) + 1);
      if right.None? {
        OperandFails(memo.m, scope, left, here, minPrec, op, before);
        return None;
      }
      OperatorLeads(memo.m, scope, left, here, minPrec, op, right.value, toks[i..]);
      return ApplyBinary(op, left, right.value);
    }

    method UnaryOperand() returns (r: Option<Value>)
      requires Valid()
      modifies this, memo
      ensures Valid() && i >= old(i) && (r.Some? ==> i > old(i))
      ensures Came(AtUnary(toks[old(i)..]), r)
      decreases memo.Left(), |toks| - i + 1, 0
    {
      hide Leads, Fails, Right, Resolve;
      ghost var ts, before := toks[i..], memo.values;
      if i == |toks| {
        FailsAlways(memo.m, scope, AtUnary(ts), before);
        return None;
      }
      var tok := toks[i];
      i := i + 1;
      assert ts[0] == tok && ts[1..] == toks[i..];
      match tok {
        case TInt(n) =>
          LeadsAlways(memo.m, scope, AtUnary(ts), AtValue(VInt(n), ts[1..]));
          return Some(VInt(n));
        case TId(s) =>
          if s == "true" || s == "false" {
            LeadsAlways(memo.m, scope, AtUnary(ts), AtValue(VBool(s == "true"), ts[1..]));
            return Some(VBool(s == "true"));
          } else if s == "null" {
            FailsAlways(memo.m, scope, AtUnary(ts), before);
            return None;
          }
          r := NameValue(s);
        case TSym(sym) =>
          if sym == Open {
            r := Parenthesised();
          } else {
            r := Prefixed(sym);
          }
      }
    }

    /** `resolve_name`: a dotted name's constant, asked of the memo. */
    method NameValue(first: string) returns (r: Option<Value>)
      requires Valid() && i > 0 && toks[i - 1] == TId(first) && !IsKeyword(first)
      modifies this, memo
      ensures Valid() && i >= old(i) && Came(AtUnary(toks[old(i) - 1..]), r)
      decreases memo.Left(), |toks| - i + 1, 0
    {
      hide Leads, Fails, Right, Resolve, HasValue, KeyFailsBlocked;
      ghost var ts, before := toks[i - 1..], memo.values;
      var parts := NameParts(first);
      var k := Resolve(memo.m, scope, parts);
      if k.None? {
        NameFails(memo.m, scope, ts, parts, toks[i..], before);
        return None;
      }
      r := memo.ValueOf(k.value);
      if r.Some? {
        NameLeads(memo.m, scope, ts, parts, toks[i..], r.value);
      } else {
        NameFails(memo.m, scope, ts, parts, toks[i..], before);
      }
    }

    method Parenthesised() returns (r: Option<Value>)
      requires Valid() && i > 0 && toks[i - 1] == TSym(Open)
      modifies this, memo
      ensures Valid() && i >= old(i) && Came(AtUnary(toks[old(i) - 1..]), r)
      decreases memo.Left(), |toks| - i + 1, 3
    {
      hide Leads, Fails, Right;
      ghost var ts, before := toks[i - 1..], memo.values;
      assert ts[1..] == toks[i..];
      r := Expr(0);
      if r.None? {
        InsideFails(memo.m, scope, ts, before);
        return None;
      }
      ghost var close := toks[i..];
      var ok := Take(Close);
      if !ok {
        ParenFails(memo.m, scope, ts, r.value, close, before);
        return None;
      }
      assert close[1..] == toks[i..];
      ParenLeads(memo.m, scope, ts, r.value, close);
    }

    method Prefixed(sym: Symbol) returns (r: Option<Value>)
      requires Valid() && i > 0 && toks[i - 1] == TSym(sym) && sym != Open
      modifies this, memo
      ensures Valid() && i >= old(i) && Came(AtUnary(toks[old(i) - 1..]), r)
      decreases memo.Left(), |toks| - i + 1, 3
    {
      hide Leads, Fails, Right, ApplyUnary;
      ghost var ts, before := toks[i - 1..], memo.values;
      assert ts[1..] == toks[i..];
      var op := AsUnary(sym);
      if op.None? {
        FailsAlways(memo.m, scope, AtUnary(ts), before);
        return None;
      }
      r := UnaryOperand();
      if r.None? {
        PrefixFails(memo.m, scope, ts, before);
        return None;
      }
      PrefixLeads(memo.m, scope, ts, op.value, r.value, toks[i..]);
      return Some(ApplyUnary(op.value, r.value));
    }

    /** The dotted name whose first part has just been taken. */
    method NameParts(first: string) returns (parts: seq<string>)
      requires Valid() && i > 0 && toks[i - 1] == TId(first)
      modifies this
      ensures Valid() && i >= old(i)
      ensures (parts, toks[i..]) == ParseName(toks[old(i) - 1..])
    {
      hide Right, ParseName;
      parts := [first];
      ghost var whole := ParseName(toks[i - 1..]);
      NameStarts(toks, i);
      while i + 1 < |toks| && toks[i] == TSym(Dot) && toks[i + 1].TId?
        invariant old(i) <= i <= |toks| && NamedSoFar(toks, i, parts, whole)
        decreases |toks| - i
      {
        NameGoesOn(toks, i, parts, whole);
        parts := parts + [toks[i + 1].text];
        i := i + 2;
      }
      NameEnds(toks, i, parts, whole);
    }
  }

  /** The parts taken so far, the last of them just before the cursor, begin the name. */
  ghost predicate NamedSoFar(toks: seq<Token>, i: nat, parts: seq<string>, whole: (seq<string>, seq<Token>))
  {
    && 0 < i <= |toks| && toks[i - 1].TId? && parts != [] && parts[|parts| - 1] == toks[i - 1].text
    && whole == (parts[..|parts| - 1] + ParseName(toks[i - 1..]).0, ParseName(toks[i - 1..]).1)
  }

  lemma NameStarts(toks: seq<Token>, i: nat)
    requires 0 < i <= |toks| && toks[i - 1].TId?
    ensures NamedSoFar(toks, i, [toks[i - 1].text], ParseName(toks[i - 1..]))
  {
    hide ParseName;
    assert [toks[i - 1].text][..0] + ParseName(toks[i - 1..]).0 == ParseName(toks[i - 1..]).0;
  }

  lemma NameGoesOn(toks: seq<Token>, i: nat, parts: seq<string>, whole: (seq<string>, seq<Token>))
    requires NamedSoFar(toks, i, parts, whole) && i + 1 < |toks| && toks[i] == TSym(Dot) && toks[i + 1].TId?
    ensures NamedSoFar(toks, i + 2, parts + [toks[i + 1].text], whole)
  {
    var here, more := toks[i - 1..], ParseName(toks[i + 1..]).0;
    assert here[2..] == toks[i + 1..] && here[1] == TSym(Dot);
    assert ParseName(here) == ([here[0].text] + more, ParseName(toks[i + 1..]).1);
    hide ParseName;
    assert parts[..|parts| - 1] + ([here[0].text] + more) == parts + more;
    assert (parts + [toks[i + 1].text])[..|parts|] == parts;
  }

  lemma NameEnds(toks: seq<Token>, i: nat, parts: seq<string>, whole: (seq<string>, seq<Token>))
    requires NamedSoFar(toks, i, parts, whole) && !(i + 1 < |toks| && toks[i] == TSym(Dot) && toks[i + 1].TId?)
    ensures whole == (parts, toks[i..])
  {
    assert toks[i - 1..][1..] == toks[i..];
    assert parts == parts[..|parts| - 1] + [toks[i - 1].text];
  }

  // ---------------------------------------------------------------- failures of parts

  lemma ExprFails(m: Model, scope: QName, ts: seq<Token>, min: nat, values: Values)
    requires WellFormed(m) && scope in m && Fails(m, scope, AtUnary(ts), values)
    ensures Fails(m, scope, AtExpr(ts, min), values)
  {
    hide Fails, ParseUnary, ParseMore;
    NeedsAlways(m, scope, AtExpr(ts, min), AtUnary(ts));
    PartFails(m, scope, AtExpr(ts, min), AtUnary(ts), values, values);
  }

  lemma FirstFails(m: Model, scope: QName, left: Value, ts: seq<Token>, values: Values)
    requires WellFormed(m) && scope in m && ts != [] && ts[0] == TSym(Question)
    requires Fails(m, scope, AtExpr(ts[1..], 0), values)
    ensures Fails(m, scope, AtMore(left, ts, 0), values)
  {
    hide Fails, ParseExpr;
    NeedsAlways(m, scope, AtMore(left, ts, 0), AtExpr(ts[1..], 0));
    PartFails(m, scope, AtMore(left, ts, 0), AtExpr(ts[1..], 0), values, values);
  }

  lemma OperandFails(m: Model, scope: QName, left: Value, ts: seq<Token>, min: nat, op: BinaryOp, values: Values)
    requires WellFormed(m) && scope in m && ts != [] && ts[0].TSym? && AsBinary(ts[0].sym) == Some(op)
             && Precedence(op) >= min
    requires Fails(m, scope, AtExpr(ts[1..], Precedence(op) + 1), values)
    ensures Fails(m, scope, AtMore(left, ts, min), values)
  {
    hide Fails, ParseExpr, Precedence;
    var part := AtExpr(ts[1..], Precedence(op) + 1);
    NeedsAlways(m, scope, AtMore(left, ts, min), part);
    PartFails(m, scope, AtMore(left, ts, min), part, values, values);
  }

  lemma InsideFails(m: Model, scope: QName, ts: seq<Token>, values: Values)
    requires WellFormed(m) && scope in m && ts != [] && ts[0] == TSym(Open)
    requires Fails(m, scope, AtExpr(ts[1..], 0), values)
    ensures Fails(m, scope, AtUnary(ts), values)
  {
    hide Fails, ParseExpr;
    NeedsAlways(m, scope, AtUnary(ts), AtExpr(ts[1..], 0));
    PartFails(m, scope, AtUnary(ts), AtExpr(ts[1..], 0), values, values);
  }

  lemma PrefixFails(m: Model, scope: QName, ts: seq<Token>, values: Values)
    requires WellFormed(m) && scope in m && ts != [] && ts[0].TSym? && ts[0].sym != Open && AsUnary(ts[0].sym).Some?
    requires Fails(m, scope, AtUnary(ts[1..]), values)
    ensures Fails(m, scope, AtUnary(ts), values)
  {
    hide Fails, ParseExpr, ApplyUnary;
    NeedsAlways(m, scope, AtUnary(ts), AtUnary(ts[1..]));
    PartFails(m, scope, AtUnary(ts), AtUnary(ts[1..]), values, values);
  }

  /** What a goal leads to fails later than the goal was set. */
  lemma LeadsFails(m: Model, scope: QName, g: Goal, h: Goal, was: Values, now: Values)
    requires WellFormed(m) && scope in m && Leads(m, scope, g, h) && Fails(m, scope, h, now) && Settled(was, now)
    ensures Fails(m, scope, g, was)
  {
    hide At, SameFrom;
    assert Needs(m, scope, g, h);
    hide Fails, Leads;
    PartFails(m, scope, g, h, was, now);
  }

  /** Nothing more is taken. */
  lemma Ends(m: Model, scope: QName, g: Goal, left: Value, ts: seq<Token>, min: nat)
    requires WellFormed(m) && scope in m && Leads(m, scope, g, AtMore(left, ts, min))
    requires Stops(min, ts)
    ensures Leads(m, scope, g, AtValue(left, ts))
  {
    hide Leads, ParseExpr;
    LeadsAlways(m, scope, AtMore(left, ts, min), AtValue(left, ts));
    LeadsOn(m, scope, g, AtMore(left, ts, min), AtValue(left, ts));
  }
}
