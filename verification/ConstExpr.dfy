/** Constant expressions over integers and booleans: their values, and how they are printed. */
module ConstExpr {
  import opened Wrappers
  import opened Bytes

  datatype Value = VInt(n: int) | VBool(b: bool) {
    function Num(): int
    {
      match this
      case VInt(n) => n
      case VBool(b) => if b then 1 else 0
    }

    predicate Truth() { Num() != 0 }
  }

  datatype UnaryOp = Negate | Plus | Invert | Not

  datatype BinaryOp =
    | LogicalOr | LogicalAnd | BitOr | BitXor | BitAnd | Equal | NotEqual
    | Less | Greater | AtMost | AtLeast | ShiftLeft | ShiftRight | Add | Subtract | Multiply | Divide | Remainder

  function Precedence(op: BinaryOp): (p: nat)
    ensures 1 <= p <= 10
  {
    match op
    case LogicalOr => 1
    case LogicalAnd => 2
    case BitOr => 3
    case BitXor => 4
    case BitAnd => 5
    case Equal => 6
    case NotEqual => 6
    case Less => 7
    case Greater => 7
    case AtMost => 7
    case AtLeast => 7
    case ShiftLeft => 8
    case ShiftRight => 8
    case Add => 9
    case Subtract => 9
    case Multiply => 10
    case Divide => 10
    case Remainder => 10
  }

  // ---------------------------------------------------------------- arithmetic

  /** Division that rounds towards zero. */
  function CDiv(a: int, b: int): (q: int)
    requires b != 0
  {
    var abs := (if a < 0 then -a else a) / (if b < 0 then -b else b);
    if (a >= 0) == (b >= 0) then abs else -abs
  }

  /** The remainder has the dividend's sign and is smaller than the divisor. */
  lemma CDivRounds(a: int, b: int)
    requires b != 0
    ensures var r := a - CDiv(a, b) * b;
            && (a >= 0 ==> r >= 0) && (a <= 0 ==> r <= 0)
            && (if r < 0 then -r else r) < (if b < 0 then -b else b)
  {
    var x, y := if a < 0 then -a else a, if b < 0 then -b else b;
    var q := x / y;
    Signs(q, y);
    assert CDiv(a, b) * b == if a >= 0 then q * y else -(q * y);
    assert x - q * y == x % y;
  }

  lemma Signs(q: int, y: int)
    ensures (-q) * (-y) == q * y && (-q) * y == -(q * y) && q * (-y) == -(q * y)
  {
  }

  /** Bitwise operations on integers of unbounded width, in two's complement. */
  function Bitwise(op: (bool, bool) -> bool, a: int, b: int): int
    decreases if a < 0 then -a else a + 1, if b < 0 then -b else b + 1
  {
    if (a == 0 || a == -1) && (b == 0 || b == -1) then (if op(a == -1, b == -1) then -1 else 0)
    else if a == 0 || a == -1 then BitwiseConst(op, a == -1, b)
    else 2 * Bitwise(op, a / 2, b / 2) + (if op(a % 2 == 1, b % 2 == 1) then 1 else 0)
  }

  function BitwiseConst(op: (bool, bool) -> bool, a: bool, b: int): int
    decreases if b < 0 then -b else b + 1
  {
    if b == 0 || b == -1 then (if op(a, b == -1) then -1 else 0)
    else 2 * BitwiseConst(op, a, b / 2) + (if op(a, b % 2 == 1) then 1 else 0)
  }

  /** Bit `k` of an integer in two's complement. */
  function Bit(n: int, k: nat): bool
    decreases k
  {
    if k == 0 then n % 2 == 1 else Bit(n / 2, k - 1)
  }

  lemma {:induction false} BitConst(n: int, k: nat)
    requires n == 0 || n == -1
    ensures Bit(n, k) == (n == -1)
    decreases k
  {
    if k > 0 {
      BitConst(n / 2, k - 1);
    }
  }

  /** The operation acts on every bit by itself. */
  lemma {:induction false} BitwiseBits(op: (bool, bool) -> bool, a: int, b: int, k: nat)
    ensures Bit(Bitwise(op, a, b), k) == op(Bit(a, k), Bit(b, k))
    decreases k
  {
    if (a == 0 || a == -1) && (b == 0 || b == -1) {
      BitConst(a, k);
      BitConst(b, k);
      BitConst(Bitwise(op, a, b), k);
    } else if a == 0 || a == -1 {
      BitConst(a, k);
      BitwiseConstBits(op, a == -1, b, k);
    } else if k > 0 {
      BitwiseBits(op, a / 2, b / 2, k - 1);
    }
  }

  lemma {:induction false} BitwiseConstBits(op: (bool, bool) -> bool, a: bool, b: int, k: nat)
    ensures Bit(BitwiseConst(op, a, b), k) == op(a, Bit(b, k))
    decreases k
  {
    if b == 0 || b == -1 {
      BitConst(b, k);
      BitConst(BitwiseConst(op, a, b), k);
    } else if k > 0 {
      BitwiseConstBits(op, a, b / 2, k - 1);
    }
  }

  function ApplyUnary(op: UnaryOp, v: Value): Value
  {
    match op
    case Negate => VInt(-v.Num())
    case Plus => VInt(v.Num())
    case Invert => VInt(-v.Num() - 1)
    case Not => VBool(!v.Truth())
  }

  /** None where the evaluator raises. */
  function ApplyBinary(op: BinaryOp, a: Value, b: Value): Option<Value>
  {
    var x, y := a.Num(), b.Num();
    match op
    case LogicalOr => Some(VBool(a.Truth() || b.Truth()))
    case LogicalAnd => Some(VBool(a.Truth() && b.Truth()))
    case Equal => Some(VBool(x == y))
    case NotEqual => Some(VBool(x != y))
    case Less => Some(VBool(x < y))
    case Greater => Some(VBool(x > y))
    case AtMost => Some(VBool(x <= y))
    case AtLeast => Some(VBool(x >= y))
    case BitOr => Some(VInt(Bitwise((p, q) => p || q, x, y)))
    case BitXor => Some(VInt(Bitwise((p, q) => p != q, x, y)))
    case BitAnd => Some(VInt(Bitwise((p, q) => p && q, x, y)))
    case ShiftLeft => if y < 0 then None else Some(VInt(x * Pow2(y)))
    case ShiftRight => if y < 0 then None else Some(VInt(x / Pow2(y)))
    case Add => Some(VInt(x + y))
    case Subtract => Some(VInt(x - y))
    case Multiply => Some(VInt(x * y))
    case Divide => if y == 0 then None else Some(VInt(CDiv(x, y)))
    case Remainder => if y == 0 then None else Some(VInt(x - CDiv(x, y) * y))
  }

  // ---------------------------------------------------------------- trees

  datatype Expr =
    | Lit(n: nat)
    | BoolLit(b: bool)
    | Name(parts: seq<string>)
    | Paren(e: Expr)
    | Unary(op: UnaryOp, operand: Expr)
    | Binary(bop: BinaryOp, left: Expr, right: Expr)
    | Conditional(cond: Expr, yes: Expr, no: Expr)

  type Env = seq<string> -> Option<Value>

  /** Every part is evaluated, chosen or not: the evaluator has no way to skip one. */
  function Eval(e: Expr, env: Env): Option<Value>
  {
    match e
    case Lit(n) => Some(VInt(n))
    case BoolLit(b) => Some(VBool(b))
    case Name(parts) => env(parts)
    case Paren(x) => Eval(x, env)
    case Unary(op, x) =>
      var v :- Eval(x, env);
      Some(ApplyUnary(op, v))
    case Binary(op, l, r) =>
      var a :- Eval(l, env);
      var b :- Eval(r, env);
      ApplyBinary(op, a, b)
    case Conditional(c, x, y) =>
      var k :- Eval(c, env);
      var a :- Eval(x, env);
      var b :- Eval(y, env);
      Some(if k.Truth() then a else b)
  }

  // ---------------------------------------------------------------- tokens

  /** Every operator but the two that are also unary. */
  type OnlyBinary = op: BinaryOp | !op.Add? && !op.Subtract? witness LogicalOr

  datatype Symbol = Minus | PlusSign | Tilde | Bang | Question | Colon | Open | Close | Dot | Operator(op: OnlyBinary)

  datatype Token = TInt(n: nat) | TId(text: string) | TSym(sym: Symbol)

  /** The binary operator a symbol is, if any: '-' and '+' are also unary. */
  function AsBinary(s: Symbol): (op: Option<BinaryOp>)
    ensures op.Some? ==> BinarySymbol(op.value) == s
  {
    match s
    case Minus => Some(Subtract)
    case PlusSign => Some(Add)
    case Operator(op) => Some(op)
    case _ => None
  }

  function AsUnary(s: Symbol): (op: Option<UnaryOp>)
    ensures op.Some? ==> UnarySymbol(op.value) == s
  {
    match s
    case Minus => Some(Negate)
    case PlusSign => Some(Plus)
    case Tilde => Some(Invert)
    case Bang => Some(Not)
    case _ => None
  }

  function BinarySymbol(op: BinaryOp): (s: Symbol)
  {
    match op
    case Add => PlusSign
    case Subtract => Minus
    case _ => Operator(op)
  }

  function UnarySymbol(op: UnaryOp): (s: Symbol)
  {
    match op
    case Negate => Minus
    case Plus => PlusSign
    case Invert => Tilde
    case Not => Bang
  }

  // ---------------------------------------------------------------- printing

  const UNARY := 11
  const ATOM := 12

  predicate IsKeyword(s: string)
  {
    s == "true" || s == "false" || s == "null"
  }

  /** Names are dotted identifiers that do not start with a keyword. */
  predicate Printable(e: Expr)
  {
    match e
    case Lit(_) => true
    case BoolLit(_) => true
    case Name(parts) => parts != [] && !IsKeyword(parts[0])
    case Paren(x) => Printable(x)
    case Unary(_, x) => Printable(x)
    case Binary(_, l, r) => Printable(l) && Printable(r)
    case Conditional(c, x, y) => Printable(c) && Printable(x) && Printable(y)
  }

  function Level(e: Expr): (l: nat)
    ensures l <= ATOM
  {
    match e
    case Conditional(_, _, _) => 0
    case Binary(op, _, _) => Precedence(op)
    case Unary(_, _) => UNARY
    case _ => ATOM
  }

  function PrintName(parts: seq<string>): seq<Token>
    requires parts != []
  {
    if |parts| == 1 then [TId(parts[0])] else [TId(parts[0]), TSym(Dot)] + PrintName(parts[1..])
  }

  function Print(e: Expr): (ts: seq<Token>)
    requires Printable(e)
    ensures ts != []
    decreases e, 0
  {
    match e
    case Lit(n) => [TInt(n)]
    case BoolLit(b) => [TId(if b then "true" else "false")]
    case Name(parts) => PrintName(parts)
    case Paren(x) => [TSym(Open)] + PrintAt(x, 0) + [TSym(Close)]
    case Unary(op, x) => [TSym(UnarySymbol(op))] + PrintAt(x, UNARY)
    case Binary(op, l, r) => PrintAt(l, Precedence(op)) + ([TSym(BinarySymbol(op))] + PrintAt(r, Precedence(op) + 1))
    case Conditional(c, x, y) =>
      PrintAt(c, 1) + ([TSym(Question)] + (PrintAt(x, 0) + ([TSym(Colon)] + PrintAt(y, 0))))
  }

  /** With parentheses only when the place it stands in binds tighter than it does. */
  function PrintAt(e: Expr, level: nat): (ts: seq<Token>)
    requires Printable(e)
    ensures ts != []
    decreases e, 1
  {
    if Level(e) < level then [TSym(Open)] + Print(e) + [TSym(Close)] else Print(e)
  }
}
