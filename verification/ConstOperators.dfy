/** What C's operators mean in a constant expression, and which of them bind tighter. */
module ConstOperators {
  import opened Wrappers
  import opened Bytes
  import opened ConstExpr
  import opened ConstEvaluator

  /** The binary operators, those that bind loosest first. */
  const CLASSES: seq<seq<Symbol>> := [
    [Operator(LogicalOr)],
    [Operator(LogicalAnd)],
    [Operator(BitOr)],
    [Operator(BitXor)],
    [Operator(BitAnd)],
    [Operator(Equal), Operator(NotEqual)],
    [Operator(Less), Operator(Greater), Operator(AtMost), Operator(AtLeast)],
    [Operator(ShiftLeft), Operator(ShiftRight)],
    [PlusSign, Minus],
    [Operator(Multiply), Operator(Divide), Operator(Remainder)]
  ]

  /** What an operator may stand beside: a literal, a name, anything in parentheses or after a prefix operator. */
  predicate Operand(e: Expr)
  {
    Printable(e) && (e.Lit? || e.BoolLit? || e.Name? || e.Paren? || e.Unary?)
  }

  function Between(x: Expr, s: Symbol, y: Expr): seq<Token>
    requires Operand(x) && Operand(y)
  {
    Print(x) + ([TSym(s)] + Print(y))
  }

  function InParens(ts: seq<Token>): seq<Token>
  {
    [TSym(Open)] + ts + [TSym(Close)]
  }

  lemma ClassIs(i: nat, s: Symbol)
    requires i < 10 && s in CLASSES[i]
    ensures AsBinary(s).Some? && BinarySymbol(AsBinary(s).value) == s && Precedence(AsBinary(s).value) == i + 1
  {
    if
    case i < 3 =>
    case 3 <= i < 6 =>
    case 6 <= i < 8 =>
    case 8 <= i =>
  }

  lemma PrintsBetween(x: Expr, op: BinaryOp, y: Expr)
    requires Operand(x) && Operand(y)
    ensures Print(Binary(op, x, y)) == Between(x, BinarySymbol(op), y)
    ensures Print(Paren(Binary(op, x, y))) == InParens(Between(x, BinarySymbol(op), y))
    ensures Operand(Paren(Binary(op, x, y)))
  {
    hide Precedence, BinarySymbol;
    assert Printable(Binary(op, x, y));
    assert Print(Binary(op, x, y)) == Between(x, BinarySymbol(op), y);
    assert PrintAt(Binary(op, x, y), 0) == Print(Binary(op, x, y));
  }

  /**
   * Of two operators the one of a later class takes the operand between them; of two of one class, the
   * first. So a o1 b o2 c is a o1 (b o2 c) where o2's class is the later, and (a o1 b) o2 c elsewhere.
   */
  lemma Binding(env: Env, x: Expr, y: Expr, z: Expr, i: nat, j: nat, s: Symbol, t: Symbol)
    requires Operand(x) && Operand(y) && Operand(z) && i < 10 && j < 10 && s in CLASSES[i] && t in CLASSES[j]
    ensures EvalTokens(env, Print(x) + ([TSym(s)] + (Print(y) + ([TSym(t)] + Print(z))))) ==
            if j > i then EvalTokens(env, Print(x) + ([TSym(s)] + InParens(Between(y, t, z))))
            else EvalTokens(env, InParens(Between(x, s, y)) + ([TSym(t)] + Print(z)))
  {
    hide AsBinary, CLASSES, Print, PrintAt, BinarySymbol, EvalTokens, Operand;
    ClassIs(i, s);
    ClassIs(j, t);
    var a, b := AsBinary(s).value, AsBinary(t).value;
    if j > i {
      RightTaken(env, x, y, z, a, b);
    } else {
      LeftTaken(env, x, y, z, a, b);
    }
  }

  lemma RightTaken(env: Env, x: Expr, y: Expr, z: Expr, a: BinaryOp, b: BinaryOp)
    requires Operand(x) && Operand(y) && Operand(z) && Precedence(b) > Precedence(a)
    ensures EvalTokens(env, Print(x) + ([TSym(BinarySymbol(a))] + (Print(y) + ([TSym(BinarySymbol(b))] + Print(z))))) ==
            EvalTokens(env, Print(x) + ([TSym(BinarySymbol(a))] + InParens(Between(y, BinarySymbol(b), z))))
  {
    var inner := Binary(b, y, z);
    PrintsBetween(y, b, z);
    PrintsBetween(x, a, Paren(inner));
    PrintedEvaluates(env, Binary(a, x, inner));
    PrintedEvaluates(env, Binary(a, x, Paren(inner)));
    hide BinarySymbol, EvalTokens, Precedence, ApplyBinary, InParens;
    assert PrintAt(inner, Precedence(a) + 1) == Print(inner) && PrintAt(x, Precedence(a)) == Print(x);
    assert Print(Binary(a, x, inner)) == Print(x) + ([TSym(BinarySymbol(a))] + Between(y, BinarySymbol(b), z));
  }

  lemma LeftTaken(env: Env, x: Expr, y: Expr, z: Expr, a: BinaryOp, b: BinaryOp)
    requires Operand(x) && Operand(y) && Operand(z) && Precedence(b) <= Precedence(a)
    ensures EvalTokens(env, Print(x) + ([TSym(BinarySymbol(a))] + (Print(y) + ([TSym(BinarySymbol(b))] + Print(z))))) ==
            EvalTokens(env, InParens(Between(x, BinarySymbol(a), y)) + ([TSym(BinarySymbol(b))] + Print(z)))
  {
    var inner := Binary(a, x, y);
    PrintsBetween(x, a, y);
    PrintsBetween(Paren(inner), b, z);
    PrintedEvaluates(env, Binary(b, inner, z));
    PrintedEvaluates(env, Binary(b, Paren(inner), z));
    PrintsLeft(inner, b, z);
    hide Print, BinarySymbol, EvalTokens, Precedence, ApplyBinary, InParens, PrintAt, Operand, Eval;
    Regrouped(Print(x), [TSym(BinarySymbol(a))], Print(y), [TSym(BinarySymbol(b))] + Print(z));
  }

  lemma PrintsLeft(inner: Expr, b: BinaryOp, z: Expr)
    requires Printable(inner) && Operand(z) && Level(inner) >= Precedence(b)
    ensures Printable(Binary(b, inner, z))
    ensures Print(Binary(b, inner, z)) == Print(inner) + ([TSym(BinarySymbol(b))] + Print(z))
  {
    hide Precedence, BinarySymbol;
  }

  lemma Regrouped(p: seq<Token>, s: seq<Token>, q: seq<Token>, r: seq<Token>)
    ensures (p + (s + q)) + r == p + (s + (q + r))
  {
  }

  // ---------------------------------------------------------------- values

  /** The number a value counts as. */
  predicate Worth(v: Value, n: int)
  {
    v == VInt(n) || (v == VBool(true) && n == 1) || (v == VBool(false) && n == 0)
  }

  /** `q` is m / n rounded towards zero. */
  predicate RoundsTo(m: int, n: int, q: int)
  {
    var r := m - q * n;
    (if m >= 0 then 0 <= r else r <= 0) && -(if n < 0 then -n else n) < r < if n < 0 then -n else n
  }

  /** The value of an operator between numbers m and n, or None where it has none. */
  ghost predicate BinaryMeans(s: Symbol, m: int, n: int, r: Option<Value>)
  {
    match s
    case Operator(LogicalOr) => r == Some(VBool(m != 0 || n != 0))
    case Operator(LogicalAnd) => r == Some(VBool(m != 0 && n != 0))
    case Operator(Equal) => r == Some(VBool(m == n))
    case Operator(NotEqual) => r == Some(VBool(m != n))
    case Operator(Less) => r == Some(VBool(m < n))
    case Operator(Greater) => r == Some(VBool(m > n))
    case Operator(AtMost) => r == Some(VBool(m <= n))
    case Operator(AtLeast) => r == Some(VBool(m >= n))
    case PlusSign => r == Some(VInt(m + n))
    case Minus => r == Some(VInt(m - n))
    case Operator(Multiply) => r == Some(VInt(m * n))
    case Operator(Divide) => if n == 0 then r == None else r.Some? && r.value.VInt? && RoundsTo(m, n, r.value.n)
    case Operator(Remainder) =>
      if n == 0 then r == None else exists q :: RoundsTo(m, n, q) && r == Some(VInt(m - q * n))
    case Operator(ShiftLeft) => if n < 0 then r == None else r == Some(VInt(m * Pow2(n)))
    case Operator(ShiftRight) =>
      if n < 0 then r == None else r.Some? && r.value.VInt? && 0 <= m - r.value.n * Pow2(n) < Pow2(n)
    case Operator(BitOr) => IsInt(r) && forall k: nat :: Bit(r.value.n, k) == (Bit(m, k) || Bit(n, k))
    case Operator(BitXor) => IsInt(r) && forall k: nat :: Bit(r.value.n, k) == (Bit(m, k) != Bit(n, k))
    case Operator(BitAnd) => IsInt(r) && forall k: nat :: Bit(r.value.n, k) == (Bit(m, k) && Bit(n, k))
    case _ => false
  }

  predicate IsInt(r: Option<Value>)
  {
    r.Some? && r.value.VInt?
  }

  ghost predicate UnaryMeans(s: Symbol, n: int, r: Option<Value>)
  {
    match s
    case Minus => r == Some(VInt(-n))
    case PlusSign => r == Some(VInt(n))
    case Tilde => IsInt(r) && forall k: nat :: Bit(r.value.n, k) == !Bit(n, k)
    case Bang => r == Some(VBool(n == 0))
    case _ => false
  }

  lemma ApplyMeans(op: BinaryOp, v: Value, w: Value, m: int, n: int)
    requires Worth(v, m) && Worth(w, n)
    ensures BinaryMeans(BinarySymbol(op), m, n, ApplyBinary(op, v, w))
  {
    hide BinaryMeans, ApplyBinary, BinarySymbol, Worth;
    if op in {BitOr, BitXor, BitAnd} {
      ApplyBits(op, v, w, m, n);
    } else if op in {Divide, Remainder} {
      ApplyDivision(op, v, w, m, n);
    } else if op in {LogicalOr, LogicalAnd, Equal, NotEqual, Less, Greater, AtMost, AtLeast} {
      ApplyComparison(op, v, w, m, n);
    } else {
      ApplyOther(op, v, w, m, n);
    }
  }

  lemma ApplyBits(op: BinaryOp, v: Value, w: Value, m: int, n: int)
    requires Worth(v, m) && Worth(w, n) && op in {BitOr, BitXor, BitAnd}
    ensures BinaryMeans(BinarySymbol(op), m, n, ApplyBinary(op, v, w))
  {
    hide Bitwise, Bit, CDiv, RoundsTo, Pow2;
    match op
    case BitOr => BitsMean((p, q) => p || q, m, n);
    case BitXor => BitsMean((p, q) => p != q, m, n);
    case BitAnd => BitsMean((p, q) => p && q, m, n);
  }

  lemma ApplyDivision(op: BinaryOp, v: Value, w: Value, m: int, n: int)
    requires Worth(v, m) && Worth(w, n) && op in {Divide, Remainder}
    ensures BinaryMeans(BinarySymbol(op), m, n, ApplyBinary(op, v, w))
  {
    hide Bitwise, Bit, CDiv, RoundsTo, Pow2;
    QuotientRounds(m, n);
  }

  lemma ApplyComparison(op: BinaryOp, v: Value, w: Value, m: int, n: int)
    requires Worth(v, m) && Worth(w, n)
    requires op in {LogicalOr, LogicalAnd, Equal, NotEqual, Less, Greater, AtMost, AtLeast}
    ensures BinaryMeans(BinarySymbol(op), m, n, ApplyBinary(op, v, w))
  {
    hide Bitwise, Bit, CDiv, RoundsTo, Pow2, Worth;
    WorthIs(v, m);
    WorthIs(w, n);
  }

  lemma WorthIs(v: Value, n: int)
    requires Worth(v, n)
    ensures v.Num() == n && (v.Truth() <==> n != 0)
  {
  }

  lemma ApplyOther(op: BinaryOp, v: Value, w: Value, m: int, n: int)
    requires Worth(v, m) && Worth(w, n) && op in {Add, Subtract, Multiply, ShiftLeft, ShiftRight}
    ensures BinaryMeans(BinarySymbol(op), m, n, ApplyBinary(op, v, w))
  {
    hide Bitwise, Bit, CDiv, RoundsTo, Pow2, Worth;
    WorthIs(v, m);
    WorthIs(w, n);
    if op.ShiftRight? {
      ShiftedDown(m, n);
    }
  }

  lemma BitsMean(op: (bool, bool) -> bool, m: int, n: int)
    ensures forall k: nat :: Bit(Bitwise(op, m, n), k) == op(Bit(m, k), Bit(n, k))
  {
    forall k: nat
      ensures Bit(Bitwise(op, m, n), k) == op(Bit(m, k), Bit(n, k))
    {
      BitwiseBits(op, m, n, k);
    }
  }

  lemma QuotientRounds(m: int, n: int)
    ensures n != 0 ==> RoundsTo(m, n, CDiv(m, n))
  {
    if n != 0 {
      CDivRounds(m, n);
    }
  }

  lemma ShiftedDown(m: int, n: int)
    ensures n >= 0 ==> 0 <= m - m / Pow2(n) * Pow2(n) < Pow2(n)
  {
  }

  /** An operator of the classes between two operands has its meaning on the numbers they are worth. */
  lemma OperatorMeans(env: Env, x: Expr, y: Expr, i: nat, s: Symbol, v: Value, w: Value, m: int, n: int)
    requires Operand(x) && Operand(y) && i < 10 && s in CLASSES[i]
    requires EvalTokens(env, Print(x)) == Some(v) && EvalTokens(env, Print(y)) == Some(w) && Worth(v, m) && Worth(w, n)
    ensures BinaryMeans(s, m, n, EvalTokens(env, Between(x, s, y)))
  {
    ClassIs(i, s);
    hide AsBinary, CLASSES, BinarySymbol, EvalTokens, ApplyBinary, BinaryMeans, Print, Worth;
    var op := AsBinary(s).value;
    PrintsBetween(x, op, y);
    PrintedEvaluates(env, x);
    PrintedEvaluates(env, y);
    PrintedEvaluates(env, Binary(op, x, y));
    ApplyMeans(op, v, w, m, n);
  }

  lemma BitNot(n: int, k: nat)
    ensures Bit(-n - 1, k) == !Bit(n, k)
    decreases k
  {
    if k > 0 {
      assert (-n - 1) / 2 == -(n / 2) - 1;
      BitNot(n / 2, k - 1);
    }
  }

  lemma ApplyUnaryMeans(op: UnaryOp, v: Value, n: int)
    requires Worth(v, n)
    ensures UnaryMeans(UnarySymbol(op), n, Some(ApplyUnary(op, v)))
  {
    hide Bit;
    if op.Invert? {
      forall k: nat
        ensures Bit(-n - 1, k) == !Bit(n, k)
      {
        BitNot(n, k);
      }
    }
  }

  /** A prefix operator before an operand has its meaning on the number that is worth. */
  lemma PrefixMeans(env: Env, x: Expr, u: Symbol, v: Value, n: int)
    requires Operand(x) && u in {Minus, PlusSign, Tilde, Bang} && EvalTokens(env, Print(x)) == Some(v) && Worth(v, n)
    ensures UnaryMeans(u, n, EvalTokens(env, [TSym(u)] + Print(x)))
  {
    PrefixIs(u);
    hide AsUnary, EvalTokens, Worth, UnaryMeans, ApplyUnary;
    var op := AsUnary(u).value;
    PrintsUnary(op, x);
    PrintedEvaluates(env, x);
    PrintedEvaluates(env, Unary(op, x));
    ApplyUnaryMeans(op, v, n);
  }

  /** It takes no more than that operand. */
  lemma PrefixBinds(env: Env, x: Expr, y: Expr, i: nat, u: Symbol, s: Symbol)
    requires Operand(x) && Operand(y) && u in {Minus, PlusSign, Tilde, Bang} && i < 10 && s in CLASSES[i]
    ensures EvalTokens(env, [TSym(u)] + (Print(x) + ([TSym(s)] + Print(y)))) ==
            EvalTokens(env, InParens([TSym(u)] + Print(x)) + ([TSym(s)] + Print(y)))
  {
    ClassIs(i, s);
    PrefixIs(u);
    hide AsBinary, AsUnary, CLASSES, BinarySymbol, EvalTokens, Print, Operand, Eval, InParens;
    var op, e := AsBinary(s).value, Unary(AsUnary(u).value, x);
    PrintsUnary(e.op, x);
    ParensAround(env, e, op, y);
    PrefixMoved([TSym(u)], Print(x), [TSym(s)] + Print(y));
  }

  lemma PrefixMoved(p: seq<Token>, q: seq<Token>, r: seq<Token>)
    ensures (p + q) + r == p + (q + r)
  {
  }

  lemma ParensAround(env: Env, e: Expr, op: BinaryOp, y: Expr)
    requires Operand(e) && Operand(Paren(e)) && Operand(y)
    ensures EvalTokens(env, Between(e, BinarySymbol(op), y)) == EvalTokens(env, Between(Paren(e), BinarySymbol(op), y))
  {
    hide EvalTokens, BinarySymbol, Print, ApplyBinary;
    PrintsBetween(e, op, y);
    PrintsBetween(Paren(e), op, y);
    PrintedEvaluates(env, Binary(op, e, y));
    PrintedEvaluates(env, Binary(op, Paren(e), y));
  }

  lemma PrefixIs(u: Symbol)
    requires u in {Minus, PlusSign, Tilde, Bang}
    ensures AsUnary(u).Some? && UnarySymbol(AsUnary(u).value) == u
  {
  }

  lemma PrintsUnary(op: UnaryOp, x: Expr)
    requires Operand(x)
    ensures Operand(Unary(op, x)) && Operand(Paren(Unary(op, x)))
    ensures Print(Unary(op, x)) == [TSym(UnarySymbol(op))] + Print(x)
    ensures Print(Paren(Unary(op, x))) == InParens([TSym(UnarySymbol(op))] + Print(x))
  {
    hide UnarySymbol;
    assert PrintAt(Unary(op, x), 0) == Print(Unary(op, x));
  }

  /** The literals are their values, and null is none. */
  lemma LiteralsMean(env: Env, n: nat)
    ensures EvalTokens(env, [TInt(n)]) == Some(VInt(n))
    ensures EvalTokens(env, [TId("true")]) == Some(VBool(true))
    ensures EvalTokens(env, [TId("false")]) == Some(VBool(false))
    ensures EvalTokens(env, [TId("null")]) == None
  {
    PrintedEvaluates(env, Lit(n));
  }

  /**
   * A condition is true where it is worth anything but 0. It binds looser than every operator, in the
   * condition and in both alternatives.
   */
  lemma ConditionalMeans(env: Env, c: Expr, d: Expr, x: Expr, y: Expr, z: Expr, i: nat, s: Symbol, v: Value, n: int)
    requires Operand(c) && Operand(d) && Operand(x) && Operand(y) && Operand(z) && i < 10 && s in CLASSES[i]
    requires EvalTokens(env, Between(c, s, d)) == Some(v) && Worth(v, n)
    ensures var yes, no := EvalTokens(env, Print(x)), EvalTokens(env, Between(y, s, z));
            EvalTokens(env, Between(c, s, d) + ([TSym(Question)] + (Print(x) + ([TSym(Colon)] + Between(y, s, z))))) ==
            if yes.None? || no.None? then None else if n != 0 then yes else no
  {
    ClassIs(i, s);
    hide AsBinary, CLASSES, BinarySymbol, EvalTokens, ApplyBinary;
    var op := AsBinary(s).value;
    PrintsBetween(c, op, d);
    PrintsBetween(y, op, z);
    var e := Conditional(Binary(op, c, d), x, Binary(op, y, z));
    PrintedEvaluates(env, e);
    PrintedEvaluates(env, e.cond);
    PrintedEvaluates(env, x);
    PrintedEvaluates(env, e.no);
    hide Precedence;
    assert PrintAt(e.cond, 1) == Print(e.cond) && PrintAt(x, 0) == Print(x) && PrintAt(e.no, 0) == Print(e.no);
  }
}
