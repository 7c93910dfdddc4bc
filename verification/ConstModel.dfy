/**
 * The constants of a set of declarations, and what they are worth by plain recursion. Initialisers are
 * tokens, as they were read.
 */
module ConstModel {
  import opened Wrappers
  import opened Bytes
  import opened ConstExpr
  import opened ConstEvaluator

  type QName = seq<string>

  /** The widths of byte, int and long. */
  type Bits = n: nat | n == 8 || n == 32 || n == 64 witness 8

  /** The type a constant is declared with, and the width of the integer ones. */
  datatype ConstType = TBoolean | TChar | TInteger(bits: Bits)

  datatype Const = Const(name: string, ty: ConstType, toks: seq<Token>)

  datatype Enumerator = Enumerator(name: string, toks: Option<seq<Token>>)

  datatype Decl = Decl(fq: QName, pkg: QName, outer: Option<QName>, imports: seq<QName>,
                       isEnum: bool, bits: Bits, enumerators: seq<Enumerator>, consts: seq<Const>)

  type Model = map<QName, Decl>

  datatype Key = Key(decl: QName, name: string)

  /** A nested declaration's enclosing one is in the model, and its name is shorter. */
  ghost predicate WellFormed(m: Model)
  {
    forall q :: q in m ==>
      && m[q].fq == q
      && (m[q].outer.Some? ==> m[q].outer.value in m && |m[q].outer.value| < |q|)
  }

  // ---------------------------------------------------------------- names

  function IndexOf(es: seq<Enumerator>, name: string): (i: Option<nat>)
    ensures i.Some? ==> i.value < |es| && es[i.value].name == name
    ensures i.None? ==> forall k :: 0 <= k < |es| ==> es[k].name != name
  {
    if es == [] then None
    else if es[0].name == name then Some(0)
    else
      var i :- IndexOf(es[1..], name);
      Some(i + 1)
  }

  function FindConst(cs: seq<Const>, name: string): (c: Option<Const>)
    ensures c.Some? ==> c.value in cs && c.value.name == name
  {
    if cs == [] then None else if cs[0].name == name then Some(cs[0]) else FindConst(cs[1..], name)
  }

  predicate HasMember(d: Decl, name: string)
  {
    (d.isEnum && IndexOf(d.enumerators, name).Some?) || FindConst(d.consts, name).Some?
  }

  /** The innermost enclosing declaration with a member of this name. */
  function ResolveMember(m: Model, scope: QName, name: string): Option<Key>
    requires WellFormed(m) && scope in m
    decreases |scope|
  {
    if HasMember(m[scope], name) then Some(Key(scope, name))
    else if m[scope].outer.Some? then ResolveMember(m, m[scope].outer.value, name)
    else None
  }

  function LookupNested(m: Model, scope: QName, name: QName): Option<QName>
    requires WellFormed(m) && scope in m
    decreases |scope|
  {
    if scope + name in m then Some(scope + name)
    else if m[scope].outer.Some? then LookupNested(m, m[scope].outer.value, name)
    else None
  }

  function LookupImported(m: Model, imports: seq<QName>, name: QName): Option<QName>
    requires name != []
  {
    if imports == [] then None
    else if imports[0] != [] && imports[0][|imports[0]| - 1] == name[0] && imports[0] + name[1..] in m
      then Some(imports[0] + name[1..])
    else LookupImported(m, imports[1..], name)
  }

  /** A type's name: as it stands, nested in the scope or around it, in the package, imported. */
  function Lookup(m: Model, scope: QName, name: QName): (r: Option<QName>)
    requires WellFormed(m) && scope in m && name != []
  {
    if name in m then Some(name)
    else if LookupNested(m, scope, name).Some? then LookupNested(m, scope, name)
    else if m[scope].pkg + name in m then Some(m[scope].pkg + name)
    else LookupImported(m, m[scope].imports, name)
  }

  /** The constant a dotted name stands for; None where the name is unknown. */
  function Resolve(m: Model, scope: QName, parts: QName): Option<Key>
    requires WellFormed(m) && scope in m
  {
    if parts == [] then None
    else if |parts| == 1 then ResolveMember(m, scope, parts[0])
    else
      var decl :- Lookup(m, scope, parts[..|parts| - 1]);
      Some(Key(decl, parts[|parts| - 1]))
  }

  // ---------------------------------------------------------------- plain evaluation

  /** The low `bits` bits in two's complement. */
  function Wrap(v: int, bits: nat): (r: int)
    requires bits > 0
    ensures InBits(r, bits)
  {
    var n := v % Pow2(bits);
    if n >= Pow2(bits - 1) then n - Pow2(bits) else n
  }

  predicate InBits(r: int, bits: nat)
    requires bits > 0
  {
    var half: int := Pow2(bits - 1);
    -half <= r < half
  }

  /** It differs from the value by a multiple of 2^bits, and nothing else in range does. */
  lemma WrapUnique(v: int, bits: nat, r: int, k: int)
    requires bits > 0 && InBits(r, bits) && v == r + k * Pow2(bits)
    ensures Wrap(v, bits) == r
  {
    HalfOf(bits);
    hide Pow2;
    if r < 0 {
      Reassociate(k - 1, r + Pow2(bits), Pow2(bits));
      WrapOf(v, bits, k - 1, r + Pow2(bits));
    } else {
      WrapOf(v, bits, k, r);
    }
  }

  lemma HalfOf(bits: nat)
    requires bits > 0
    ensures Pow2(bits) == 2 * Pow2(bits - 1)
  {
  }

  lemma WrapOf(v: int, bits: nat, q: int, n: int)
    requires bits > 0 && 0 <= n < Pow2(bits) && v == q * Pow2(bits) + n
    ensures Wrap(v, bits) == if n >= Pow2(bits - 1) then n - Pow2(bits) else n
  {
    hide Pow2;
    Split(q, Pow2(bits), n);
  }

  lemma WrapCongruent(v: int, bits: nat) returns (k: int)
    requires bits > 0
    ensures v == Wrap(v, bits) + k * Pow2(bits)
  {
    k := v / Pow2(bits);
    Quotient(v, Pow2(bits));
    if v % Pow2(bits) >= Pow2(bits - 1) {
      Reassociate(k, v % Pow2(bits), Pow2(bits));
      k := k + 1;
    }
  }

  lemma Quotient(v: int, p: int)
    requires p > 0
    ensures v == v / p * p + v % p
  {
  }

  lemma Reassociate(d: int, n: int, p: int)
    ensures d * p + n == n - p + (d + 1) * p
  {
  }

  /** Wrapping before an addition changes nothing. */
  lemma WrapStep(x: int, bits: nat)
    requires bits > 0
    ensures Wrap(Wrap(x, bits) + 1, bits) == Wrap(x + 1, bits)
  {
    hide Wrap, InBits, Pow2;
    var k := WrapCongruent(x, bits);
    var j := WrapCongruent(Wrap(x, bits) + 1, bits);
    Multiples(j, k, Pow2(bits));
    WrapUnique(x + 1, bits, Wrap(Wrap(x, bits) + 1, bits), j + k);
  }

  lemma Multiples(j: int, k: int, p: int)
    ensures j * p + k * p == (j + k) * p
  {
  }

  function Coerce(v: Value, ty: ConstType): Value
  {
    match ty
    case TBoolean => VBool(v.Truth())
    case TChar => VInt(v.Num() % 0x1_0000)
    case TInteger(bits) => VInt(Wrap(v.Num(), bits))
  }

  /** What the value of a key is computed from: an initialiser, or the enumerator before it plus one. */
  datatype Source =
    | Unknown
    | FromTokens(toks: seq<Token>, ty: ConstType)
    | AfterEnumerator(previous: Key, bits: Bits)

  function SourceOf(m: Model, k: Key): Source
  {
    if k.decl !in m then Unknown
    else
      var d := m[k.decl];
      if d.isEnum then
        match IndexOf(d.enumerators, k.name)
        case None => Unknown
        case Some(i) =>
          if d.enumerators[i].toks.Some? then FromTokens(d.enumerators[i].toks.value, TInteger(d.bits))
          else if i == 0 then FromTokens([TInt(0)], TInteger(d.bits))
          else AfterEnumerator(Key(k.decl, d.enumerators[i - 1].name), d.bits)
      else
        match FindConst(d.consts, k.name)
        case None => Unknown
        case Some(c) => FromTokens(c.toks, c.ty)
  }

  /** A constant's value by recursion, `fuel` levels deep; None where evaluation raises or needs more. */
  function ValueIn(m: Model, k: Key, fuel: nat): (v: Option<Value>)
    requires WellFormed(m)
    decreases fuel, 1
  {
    if fuel == 0 then None
    else
      match SourceOf(m, k)
      case Unknown => None
      case FromTokens(ts, ty) =>
        var v :- EvalTokens(Names(m, k.decl, fuel - 1), ts);
        Some(Coerce(v, ty))
      case AfterEnumerator(previous, bits) =>
        var v :- ValueIn(m, previous, fuel - 1);
        Some(VInt(Wrap(v.Num() + 1, bits)))
  }

  /** What names mean in a scope. */
  function Names(m: Model, scope: QName, fuel: nat): Env
    requires WellFormed(m) && scope in m
    decreases fuel, 3
  {
    parts => NameIn(m, scope, parts, fuel)
  }

  function NameIn(m: Model, scope: QName, parts: QName, fuel: nat): Option<Value>
    requires WellFormed(m) && scope in m
    decreases fuel, 2
  {
    var k := Resolve(m, scope, parts);
    if k.None? then None else ValueIn(m, k.value, fuel)
  }

  /** `k` has a value, and it is `v`. */
  ghost predicate HasValue(m: Model, k: Key, v: Value)
    requires WellFormed(m)
  {
    exists n: nat :: ValueIn(m, k, n) == Some(v)
  }

  /** An expression has this value in a scope. */
  ghost predicate Evaluates(m: Model, scope: QName, ts: seq<Token>, v: Value)
    requires WellFormed(m) && scope in m
  {
    exists n: nat :: EvalTokens(Names(m, scope, n), ts) == Some(v)
  }

  // ---------------------------------------------------------------- more fuel changes nothing

  lemma {:induction false} FuelMonotone(m: Model, k: Key, n: nat, more: nat)
    requires WellFormed(m) && n <= more && ValueIn(m, k, n).Some?
    ensures ValueIn(m, k, more) == ValueIn(m, k, n)
    decreases n, 0
  {
    hide Wrap, Coerce, ParseExpr;
    match SourceOf(m, k)
    case FromTokens(ts, _) =>
      NamesMonotone(m, k.decl, n - 1, more - 1);
      ExprMonotone(Names(m, k.decl, n - 1), Names(m, k.decl, more - 1), ts, 0);
    case AfterEnumerator(previous, _) => FuelMonotone(m, previous, n - 1, more - 1);
  }

  lemma {:induction false} NamesMonotone(m: Model, scope: QName, n: nat, more: nat)
    requires WellFormed(m) && scope in m && n <= more
    ensures Within(Names(m, scope, n), Names(m, scope, more))
    decreases n, 1
  {
    hide ValueIn, Resolve;
    forall parts | NameIn(m, scope, parts, n).Some?
      ensures NameIn(m, scope, parts, more) == NameIn(m, scope, parts, n)
    {
      FuelMonotone(m, Resolve(m, scope, parts).value, n, more);
    }
  }

  /** A constant has at most one value. */
  lemma ValueUnique(m: Model, k: Key, v: Value, w: Value)
    requires WellFormed(m) && HasValue(m, k, v) && HasValue(m, k, w)
    ensures v == w
  {
    hide ValueIn;
    var i: nat :| ValueIn(m, k, i) == Some(v);
    var j: nat :| ValueIn(m, k, j) == Some(w);
    FuelMonotone(m, k, i, if i < j then j else i);
    FuelMonotone(m, k, j, if i < j then j else i);
  }

  // ---------------------------------------------------------------- references in a circle

  function NamesIn(e: Expr): set<QName>
  {
    match e
    case Name(parts) => {parts}
    case Paren(x) => NamesIn(x)
    case Unary(_, x) => NamesIn(x)
    case Binary(_, l, r) => NamesIn(l) + NamesIn(r)
    case Conditional(c, x, y) => NamesIn(c) + NamesIn(x) + NamesIn(y)
    case _ => {}
  }

  predicate Mentions(m: Model, scope: QName, e: Expr, other: Key)
    requires WellFormed(m) && scope in m
  {
    exists parts :: parts in NamesIn(e) && Resolve(m, scope, parts) == Some(other)
  }

  /** The value of `k` needs the value of `other`: the tree its tokens are names it. */
  ghost predicate DependsOn(m: Model, k: Key, other: Key)
    requires WellFormed(m)
  {
    match SourceOf(m, k)
    case FromTokens(ts, _) => exists e :: Printable(e) && Print(e) == ts && Mentions(m, k.decl, e, other)
    case AfterEnumerator(previous, _) => previous == other
    case _ => false
  }

  lemma {:induction false} NamesNeeded(e: Expr, env: Env, parts: QName)
    requires Eval(e, env).Some? && parts in NamesIn(e)
    ensures env(parts).Some?
  {
    match e
    case Paren(x) => NamesNeeded(x, env, parts);
    case Unary(_, x) => NamesNeeded(x, env, parts);
    case Binary(_, l, r) =>
      if parts in NamesIn(l) { NamesNeeded(l, env, parts); } else { NamesNeeded(r, env, parts); }
    case Conditional(c, x, y) =>
      if parts in NamesIn(c) { NamesNeeded(c, env, parts); }
      else if parts in NamesIn(x) { NamesNeeded(x, env, parts); }
      else { NamesNeeded(y, env, parts); }
    case _ =>
  }

  lemma DependencyHasValue(m: Model, k: Key, other: Key, n: nat)
    requires WellFormed(m) && DependsOn(m, k, other) && ValueIn(m, k, n).Some?
    ensures n > 0 && ValueIn(m, other, n - 1).Some?
  {
    hide Wrap, Coerce;
    match SourceOf(m, k)
    case FromTokens(ts, _) =>
      var e :| Printable(e) && Print(e) == ts && Mentions(m, k.decl, e, other);
      PrintedEvaluates(Names(m, k.decl, n - 1), e);
      var parts :| parts in NamesIn(e) && Resolve(m, k.decl, parts) == Some(other);
      NamesNeeded(e, Names(m, k.decl, n - 1), parts);
      assert NameIn(m, k.decl, parts, n - 1).Some?;
    case AfterEnumerator(previous, _) =>
  }

  /** Each key's value needs the next one's. */
  ghost predicate IsChain(m: Model, ks: seq<Key>)
    requires WellFormed(m)
  {
    |ks| > 0 && forall i :: 0 <= i < |ks| - 1 ==> DependsOn(m, ks[i], ks[i + 1])
  }

  lemma {:induction false} ChainHasValues(m: Model, ks: seq<Key>, n: nat)
    requires WellFormed(m) && IsChain(m, ks) && ValueIn(m, ks[0], n).Some?
    ensures n >= |ks| && ValueIn(m, ks[|ks| - 1], n - (|ks| - 1)).Some?
    decreases |ks|
  {
    hide DependsOn, ValueIn;
    if |ks| == 1 {
      NothingAtZero(m, ks[0]);
    } else {
      DependencyHasValue(m, ks[0], ks[1], n);
      ChainTail(m, ks);
      ChainHasValues(m, ks[1..], n - 1);
    }
  }

  lemma NothingAtZero(m: Model, k: Key)
    requires WellFormed(m)
    ensures ValueIn(m, k, 0).None?
  {
  }

  lemma ChainTail(m: Model, ks: seq<Key>)
    requires WellFormed(m) && IsChain(m, ks) && |ks| > 1
    ensures IsChain(m, ks[1..])
  {
    hide DependsOn;
    forall i | 0 <= i < |ks[1..]| - 1
      ensures DependsOn(m, ks[1..][i], ks[1..][i + 1])
    {
      assert DependsOn(m, ks[i + 1], ks[i + 2]);
    }
  }

  /** A constant that refers to itself, through however many others, has no value. */
  lemma {:induction false} CircularHasNoValue(m: Model, ks: seq<Key>, n: nat)
    requires WellFormed(m) && IsChain(m, ks) && |ks| > 1 && ks[0] == ks[|ks| - 1]
    ensures ValueIn(m, ks[0], n).None?
    decreases n
  {
    hide ValueIn, DependsOn;
    if ValueIn(m, ks[0], n).Some? {
      ChainHasValues(m, ks, n);
      CircularHasNoValue(m, ks, n - (|ks| - 1));
    }
  }
}
