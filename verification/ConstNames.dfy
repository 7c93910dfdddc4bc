/** What names mean in a set of declarations: where one is looked for, in what order; and what a type keeps. */
module ConstNames {
  import opened Wrappers
  import opened Bytes
  import opened ConstExpr
  import opened ConstEvaluator
  import opened ConstModel

  // ---------------------------------------------------------------- members of the scopes around

  /** A declaration and those around it, the innermost first. */
  function Scopes(m: Model, scope: QName): (s: seq<QName>)
    requires WellFormed(m) && scope in m
    ensures |s| > 0 && s[0] == scope && forall q :: q in s ==> q in m
    decreases |scope|
  {
    [scope] + match m[scope].outer case None => [] case Some(q) => Scopes(m, q)
  }

  /** An enum's enumerators are its members, and every declaration's constants. */
  ghost predicate Declares(d: Decl, name: string)
  {
    (d.isEnum && exists e :: e in d.enumerators && e.name == name) || exists c :: c in d.consts && c.name == name
  }

  lemma {:induction false} ConstFound(cs: seq<Const>, name: string)
    ensures FindConst(cs, name).Some? <==> exists c :: c in cs && c.name == name
  {
    if cs != [] {
      ConstFound(cs[1..], name);
      assert cs == [cs[0]] + cs[1..];
    }
  }

  lemma MemberIs(d: Decl, name: string)
    ensures HasMember(d, name) <==> Declares(d, name)
  {
    ConstFound(d.consts, name);
    match IndexOf(d.enumerators, name)
    case Some(i) => assert d.enumerators[i] in d.enumerators;
    case None =>
  }

  /** The member of this name of the first of these declarations to have one. */
  ghost function FirstMember(m: Model, s: seq<QName>, name: string): (k: Option<Key>)
    requires forall q :: q in s ==> q in m
    ensures match k
            case Some(key) =>
              exists i :: 0 <= i < |s| && key == Key(s[i], name) && Declares(m[s[i]], name)
                          && forall j :: 0 <= j < i ==> !Declares(m[s[j]], name)
            case None => forall i :: 0 <= i < |s| ==> !Declares(m[s[i]], name)
  {
    if s == [] then None
    else if Declares(m[s[0]], name) then Some(Key(s[0], name))
    else FirstMember(m, s[1..], name)
  }

  /** A bare name is the member of the innermost declaration around that has one of that name. */
  lemma {:induction false} BareName(m: Model, scope: QName, name: string)
    requires WellFormed(m) && scope in m
    ensures Resolve(m, scope, [name]) == FirstMember(m, Scopes(m, scope), name)
    decreases |scope|
  {
    MemberIs(m[scope], name);
    hide HasMember, Declares;
    var s := Scopes(m, scope);
    match m[scope].outer
    case None => assert s[1..] == [];
    case Some(q) =>
      BareName(m, q, name);
      assert s[1..] == Scopes(m, q);
  }

  // ---------------------------------------------------------------- dotted names

  function NestedIn(s: seq<QName>, name: QName): seq<QName>
  {
    seq(|s|, i requires 0 <= i < |s| => s[i] + name)
  }

  /** What an import whose last part is the name's first makes of the name. */
  function Imported(imports: seq<QName>, name: QName): seq<QName>
    requires name != []
  {
    if imports == [] then []
    else
      var q := imports[0];
      (if q != [] && q[|q| - 1] == name[0] then [q + name[1..]] else []) + Imported(imports[1..], name)
  }

  /** All a type's name may stand for, in order: itself, nested in each scope around, in the package, imported. */
  function Candidates(m: Model, scope: QName, name: QName): seq<QName>
    requires WellFormed(m) && scope in m && name != []
  {
    [name] + NestedIn(Scopes(m, scope), name) + [m[scope].pkg + name] + Imported(m[scope].imports, name)
  }

  /** The first of these names that is declared. */
  function Declared(m: Model, names: seq<QName>): (r: Option<QName>)
    ensures match r
            case Some(q) =>
              exists i :: 0 <= i < |names| && names[i] == q && q in m && forall j :: 0 <= j < i ==> names[j] !in m
            case None => forall i :: 0 <= i < |names| ==> names[i] !in m
  {
    if names == [] then None
    else if names[0] in m then Some(names[0])
    else Declared(m, names[1..])
  }

  lemma {:induction false} DeclaredIn(m: Model, a: seq<QName>, b: seq<QName>)
    ensures Declared(m, a + b) == if Declared(m, a).Some? then Declared(m, a) else Declared(m, b)
  {
    if a == [] {
      assert a + b == b;
    } else {
      DeclaredIn(m, a[1..], b);
      assert (a + b)[1..] == a[1..] + b;
    }
  }

  lemma {:induction false} NestedFound(m: Model, scope: QName, name: QName)
    requires WellFormed(m) && scope in m
    ensures LookupNested(m, scope, name) == Declared(m, NestedIn(Scopes(m, scope), name))
    decreases |scope|
  {
    var s := Scopes(m, scope);
    var names := NestedIn(s, name);
    assert names[0] == scope + name;
    match m[scope].outer
    case None => assert names[1..] == [];
    case Some(q) =>
      NestedFound(m, q, name);
      assert s[1..] == Scopes(m, q);
      assert names[1..] == NestedIn(Scopes(m, q), name);
  }

  lemma {:induction false} ImportedFound(m: Model, imports: seq<QName>, name: QName)
    requires name != []
    ensures LookupImported(m, imports, name) == Declared(m, Imported(imports, name))
  {
    if imports != [] {
      ImportedFound(m, imports[1..], name);
      var q := imports[0];
      if q != [] && q[|q| - 1] == name[0] {
        DeclaredIn(m, [q + name[1..]], Imported(imports[1..], name));
      } else {
        assert Imported(imports, name) == Imported(imports[1..], name);
      }
    }
  }

  /** A type's name stands for the first of those names that is declared. */
  lemma TypeName(m: Model, scope: QName, name: QName)
    requires WellFormed(m) && scope in m && name != []
    ensures Lookup(m, scope, name) == Declared(m, Candidates(m, scope, name))
  {
    var nested, imported := NestedIn(Scopes(m, scope), name), Imported(m[scope].imports, name);
    NestedFound(m, scope, name);
    ImportedFound(m, m[scope].imports, name);
    hide Scopes, NestedIn, Imported, LookupNested, LookupImported;
    DeclaredIn(m, [name] + nested + [m[scope].pkg + name], imported);
    DeclaredIn(m, [name] + nested, [m[scope].pkg + name]);
    DeclaredIn(m, [name], nested);
  }

  /** A dotted name is the member its last part names, of the type the parts before it name. */
  lemma DottedName(m: Model, scope: QName, parts: QName)
    requires WellFormed(m) && scope in m && |parts| >= 2
    ensures Resolve(m, scope, parts) ==
            match Declared(m, Candidates(m, scope, parts[..|parts| - 1]))
            case Some(q) => Some(Key(q, parts[|parts| - 1]))
            case None => None
  {
    TypeName(m, scope, parts[..|parts| - 1]);
    hide Lookup, Candidates, Declared;
  }

  // ---------------------------------------------------------------- what a constant's type makes of its value

  function Times(k: int, size: int): int { k * size }

  /** The integer from `low` to `high` that differs from `n` by a multiple of `size`. */
  ghost predicate Keeps(got: Value, n: int, low: int, high: int, size: int)
  {
    got.VInt? && low <= got.n <= high && exists k :: Times(k, size) == n - got.n
  }

  /** A boolean says whether the number is 0; an integer and a char keep its low bits, a char's without a sign. */
  lemma KeptAs(v: Value, n: int)
    requires v == VInt(n) || (v == VBool(true) && n == 1) || (v == VBool(false) && n == 0)
    ensures Coerce(v, TBoolean) == VBool(n != 0)
    ensures Keeps(Coerce(v, TChar), n, 0, 0xffff, 0x1_0000)
    ensures Keeps(Coerce(v, TInteger(8)), n, -0x80, 0x7f, 0x100)
    ensures Keeps(Coerce(v, TInteger(32)), n, -0x8000_0000, 0x7fff_ffff, 0x1_0000_0000)
    ensures Keeps(Coerce(v, TInteger(64)), n, -0x8000_0000_0000_0000, 0x7fff_ffff_ffff_ffff, 0x1_0000_0000_0000_0000)
  {
    hide Pow2, Keeps, Wrap;
    Widths();
    CharKept(v, n);
    IntegerKept(v, n, 8);
    IntegerKept(v, n, 32);
    IntegerKept(v, n, 64);
  }

  lemma CharKept(v: Value, n: int)
    requires v.Num() == n
    ensures Keeps(Coerce(v, TChar), n, 0, 0xffff, 0x1_0000)
  {
    assert Times(n / 0x1_0000, 0x1_0000) == n - n % 0x1_0000;
  }

  lemma IntegerKept(v: Value, n: int, bits: Bits)
    requires v.Num() == n
    ensures var half: int := Pow2(bits - 1); Keeps(Coerce(v, TInteger(bits)), n, -half, half - 1, Pow2(bits))
  {
    hide Wrap, Pow2;
    var k := WrapCongruent(n, bits);
    assert Times(k, Pow2(bits)) == n - Wrap(n, bits);
  }

  lemma Widths()
    ensures Pow2(7) == 0x80 && Pow2(8) == 0x100 && Pow2(31) == 0x8000_0000 && Pow2(32) == 0x1_0000_0000
    ensures Pow2(63) == 0x8000_0000_0000_0000 && Pow2(64) == 0x1_0000_0000_0000_0000
  {
    PowersOf256(1);
    PowersOf256(4);
    PowersOf256(8);
    Powers();
    assert Pow256(1) == 256;
    assert Pow2(8) == 2 * Pow2(7) && Pow2(32) == 2 * Pow2(31) && Pow2(64) == 2 * Pow2(63);
  }

  lemma {:induction false} PowersOf256(n: nat)
    ensures Pow2(8 * n) == Pow256(n)
  {
    if n > 0 {
      PowersOf256(n - 1);
      var p := 8 * (n - 1);
      assert Pow2(p + 2) == 4 * Pow2(p);
      assert Pow2(p + 4) == 4 * Pow2(p + 2);
      assert Pow2(p + 6) == 4 * Pow2(p + 4);
      assert Pow2(p + 8) == 4 * Pow2(p + 6);
    }
  }

  // ---------------------------------------------------------------- the names an expression mentions

  /** `x` stands somewhere in `e`. */
  ghost predicate StandsIn(x: Expr, e: Expr)
  {
    x == e ||
    match e
    case Paren(y) => StandsIn(x, y)
    case Unary(_, y) => StandsIn(x, y)
    case Binary(_, l, r) => StandsIn(x, l) || StandsIn(x, r)
    case Conditional(c, y, z) => StandsIn(x, c) || StandsIn(x, y) || StandsIn(x, z)
    case _ => false
  }

  /** The names that could lead a constant back to itself are all those that stand in it, in either alternative too. */
  lemma {:induction false} NamesExactly(e: Expr, parts: QName)
    ensures parts in NamesIn(e) <==> StandsIn(Name(parts), e)
  {
    match e
    case Paren(y) => NamesExactly(y, parts);
    case Unary(_, y) => NamesExactly(y, parts);
    case Binary(_, l, r) =>
      NamesExactly(l, parts);
      NamesExactly(r, parts);
    case Conditional(c, y, z) =>
      NamesExactly(c, parts);
      NamesExactly(y, parts);
      NamesExactly(z, parts);
    case _ =>
  }
}
