/** The evaluator that computes a constant while parsing it, by precedence climbing over a token cursor. */
module ConstEvaluator {
  import opened Wrappers
  import opened ConstExpr

  /** A value and the tokens after it, or None where the evaluator raises. */
  type Parse = Option<(Value, seq<Token>)>

  // ---------------------------------------------------------------- what it computes

  function ParseName(ts: seq<Token>): (r: (seq<string>, seq<Token>))
    requires ts != [] && ts[0].TId?
    ensures |r.1| < |ts| && r.0 != []
  {
    if |ts| > 2 && ts[1] == TSym(Dot) && ts[2].TId? then
      var (parts, rest) := ParseName(ts[2..]);
      ([ts[0].text] + parts, rest)
    else ([ts[0].text], ts[1..])
  }

  function ParseUnary(env: Env, ts: seq<Token>): (r: Parse)
    ensures r.Some? ==> |r.value.1| < |ts|
    decreases |ts|, 0
  {
    if ts == [] then None
    else
      match ts[0]
      case TInt(n) => Some((VInt(n), ts[1..]))
      case TId(s) =>
        if s == "true" then Some((VBool(true), ts[1..]))
        else if s == "false" then Some((VBool(false), ts[1..]))
        else if s == "null" then None
        else
          var (parts, rest) := ParseName(ts);
          var v :- env(parts);
          Some((v, rest))
      case TSym(sym) =>
        if sym == Open then
          var (v, rest) :- ParseExpr(env, ts[1..], 0);
          if rest == [] || rest[0] != TSym(Close) then None else Some((v, rest[1..]))
        else if AsUnary(sym).None? then None
        else
          var (v, rest) :- ParseUnary(env, ts[1..]);
          Some((ApplyUnary(AsUnary(sym).value, v), rest))
  }

  function ParseExpr(env: Env, ts: seq<Token>, min: nat): (r: Parse)
    ensures r.Some? ==> |r.value.1| < |ts|
    decreases |ts|, 2
  {
    var (left, rest) :- ParseUnary(env, ts);
    ParseMore(env, left, rest, min)
  }

  /** What may follow an operand at this precedence. */
  function ParseMore(env: Env, left: Value, ts: seq<Token>, min: nat): (r: Parse)
    ensures r.Some? ==> |r.value.1| <= |ts|
    decreases |ts|, 1
  {
    if ts == [] || !ts[0].TSym? then Some((left, ts))
    else if ts[0].sym == Question && min == 0 then
      var (a, rest1) :- ParseExpr(env, ts[1..], 0);
      if rest1 == [] || rest1[0] != TSym(Colon) then None
      else
        var (b, rest2) :- ParseExpr(env, rest1[1..], 0);
        ParseMore(env, if left.Truth() then a else b, rest2, min)
    else
      var op := AsBinary(ts[0].sym);
      if op.None? || Precedence(op.value) < min then Some((left, ts))
      else
        var (right, rest) :- ParseExpr(env, ts[1..], Precedence(op.value) + 1);
        var v :- ApplyBinary(op.value, left, right);
        ParseMore(env, v, rest, min)
  }

  /** A whole expression: every token must be consumed. */
  function EvalTokens(env: Env, ts: seq<Token>): Option<Value>
  {
    var (v, rest) :- ParseExpr(env, ts, 0);
    if rest == [] then Some(v) else None
  }

  // ---------------------------------------------------------------- it is the tree's value

  /** `rest` may follow `e` without being taken into it. */
  predicate MayFollow(e: Expr, rest: seq<Token>)
  {
    if rest == [] then true
    else if !rest[0].TSym? then true
    else
      && rest[0].sym != Dot
      && match e
         case Conditional(_, _, _) => rest[0].sym != Question && AsBinary(rest[0].sym).None?
         case Binary(op, _, _) => AsBinary(rest[0].sym).Some? ==>
             Precedence(AsBinary(rest[0].sym).value) <= Precedence(op)
         case _ => true
  }

  function AfterValue(v: Option<Value>, env: Env, rest: seq<Token>, min: nat): Parse
  {
    match v
    case None => None
    case Some(x) => ParseMore(env, x, rest, min)
  }

  function JustValue(v: Option<Value>, rest: seq<Token>): Parse
  {
    match v
    case None => None
    case Some(x) => Some((x, rest))
  }

  lemma {:induction false} NameReads(parts: seq<string>, rest: seq<Token>)
    requires parts != [] && (rest != [] ==> rest[0] != TSym(Dot))
    ensures ParseName(PrintName(parts) + rest) == (parts, rest)
  {
    var ts := PrintName(parts) + rest;
    if |parts| == 1 {
      assert ts[1..] == rest && [parts[0]] == parts;
    } else {
      NameReads(parts[1..], rest);
      assert ts[2..] == PrintName(parts[1..]) + rest;
      assert PrintName(parts[1..])[0].TId? && [parts[0]] + parts[1..] == parts;
    }
  }

  /** An operand printed where a unary one is wanted. */
  lemma {:induction false} UnaryReads(env: Env, e: Expr, rest: seq<Token>)
    requires Printable(e) && Level(e) >= UNARY && MayFollow(e, rest)
    ensures ParseUnary(env, Print(e) + rest) == JustValue(Eval(e, env), rest)
    decreases e, 0
  {
    hide ParseExpr, ApplyUnary, Precedence, ParseUnary;
    match e
    case Lit(_) => LiteralReads(env, e, rest);
    case BoolLit(_) => LiteralReads(env, e, rest);
    case Name(parts) => NameOperandReads(env, parts, rest);
    case Paren(x) =>
      ParenReads(env, x, rest);
      assert PrintAt(x, 0) == Print(x);
    case Unary(op, x) =>
      OperandReads(env, x, rest);
      PrefixReads(env, op, x, rest);
  }

  lemma LiteralReads(env: Env, e: Expr, rest: seq<Token>)
    requires e.Lit? || e.BoolLit?
    ensures ParseUnary(env, Print(e) + rest) == JustValue(Eval(e, env), rest)
  {
    hide ParseExpr;
    assert (Print(e) + rest)[1..] == rest;
  }

  lemma NameOperandReads(env: Env, parts: seq<string>, rest: seq<Token>)
    requires Printable(Name(parts)) && MayFollow(Name(parts), rest)
    ensures ParseUnary(env, Print(Name(parts)) + rest) == JustValue(Eval(Name(parts), env), rest)
  {
    hide ParseExpr, ParseName;
    NameReads(parts, rest);
    assert (Print(Name(parts)) + rest)[0] == TId(parts[0]);
  }

  lemma PrefixReads(env: Env, op: UnaryOp, x: Expr, rest: seq<Token>)
    requires Printable(x) && ParseUnary(env, PrintAt(x, UNARY) + rest) == JustValue(Eval(x, env), rest)
    ensures ParseUnary(env, Print(Unary(op, x)) + rest) == JustValue(Eval(Unary(op, x), env), rest)
  {
    hide ParseExpr, ApplyUnary, PrintAt;
    assert (Print(Unary(op, x)) + rest)[1..] == PrintAt(x, UNARY) + rest;
  }

  lemma {:induction false} OperandReads(env: Env, x: Expr, rest: seq<Token>)
    requires Printable(x) && (rest != [] ==> rest[0] != TSym(Dot))
    ensures ParseUnary(env, PrintAt(x, UNARY) + rest) == JustValue(Eval(x, env), rest)
    decreases x, 3
  {
    if Level(x) < UNARY {
      ParenReads(env, x, rest);
    } else {
      UnaryReads(env, x, rest);
    }
  }

  lemma {:induction false} ParenReads(env: Env, x: Expr, rest: seq<Token>)
    requires Printable(x)
    ensures ParseUnary(env, [TSym(Open)] + Print(x) + [TSym(Close)] + rest) == JustValue(Eval(x, env), rest)
    decreases x, 2
  {
    hide ParseExpr, Print, Printable;
    var ts := [TSym(Open)] + Print(x) + [TSym(Close)] + rest;
    var after := [TSym(Close)] + rest;
    assert ts[1..] == Print(x) + after;
    ExprReads(env, x, 0, after);
    if Eval(x, env).Some? {
      assert ParseMore(env, Eval(x, env).value, after, 0) == Some((Eval(x, env).value, after));
      assert after[1..] == rest;
    }
  }

  /** An expression read at a precedence no tighter than its own is its value, and then whatever follows. */
  lemma {:induction false} ExprReads(env: Env, e: Expr, min: nat, rest: seq<Token>)
    requires Printable(e) && Level(e) >= min && MayFollow(e, rest)
    ensures ParseExpr(env, Print(e) + rest, min) == AfterValue(Eval(e, env), env, rest, min)
    decreases e, 1
  {
    match e
    case Binary(op, l, r) => BinaryReads(env, op, l, r, min, rest);
    case Conditional(c, x, y) => ConditionalReads(env, c, x, y, rest);
    case _ => UnaryReads(env, e, rest);
  }

  lemma {:induction false} PlacedReads(env: Env, e: Expr, level: nat, min: nat, rest: seq<Token>)
    requires Printable(e) && level >= min && level <= UNARY
    requires MayFollow(Placed(e, level), rest)
    ensures ParseExpr(env, PrintAt(e, level) + rest, min) == AfterValue(Eval(e, env), env, rest, min)
    decreases e, 3
  {
    if Level(e) < level {
      ParenReads(env, e, rest);
    } else {
      ExprReads(env, e, min, rest);
    }
  }

  /** An operator at least as tight as `min` takes its right operand, which ends at anything no tighter. */
  lemma OperatorTaken(env: Env, op: BinaryOp, left: Value, right: Option<Value>, tail: seq<Token>, rest: seq<Token>,
                      min: nat)
    requires Precedence(op) >= min
    requires ParseExpr(env, tail, Precedence(op) + 1) == AfterValue(right, env, rest, Precedence(op) + 1)
    requires MayFollow(Binary(op, Lit(0), Lit(0)), rest)
    ensures ParseMore(env, left, [TSym(BinarySymbol(op))] + tail, min)
         == AfterValue(match right case None => None case Some(b) => ApplyBinary(op, left, b), env, rest, min)
  {
    hide ParseExpr, ApplyBinary;
    assert ([TSym(BinarySymbol(op))] + tail)[1..] == tail;
    if right.Some? {
      assert ParseMore(env, right.value, rest, Precedence(op) + 1) == Some((right.value, rest));
    }
  }

  /** `e` with the parentheses it gets in a place of this level. */
  function Placed(e: Expr, level: nat): Expr
  {
    if Level(e) < level then Paren(e) else e
  }

  lemma FollowsLeft(op: BinaryOp, l: Expr, after: seq<Token>)
    requires after != [] && after[0] == TSym(BinarySymbol(op))
    ensures MayFollow(Placed(l, Precedence(op)), after)
  {
    hide Precedence;
  }

  lemma FollowsRight(op: BinaryOp, l: Expr, r: Expr, rest: seq<Token>)
    requires MayFollow(Binary(op, l, r), rest)
    ensures MayFollow(Placed(r, Precedence(op) + 1), rest)
  {
    hide Precedence;
  }

  lemma {:induction false} BinaryReads(env: Env, op: BinaryOp, l: Expr, r: Expr, min: nat, rest: seq<Token>)
    requires Printable(l) && Printable(r) && Precedence(op) >= min && MayFollow(Binary(op, l, r), rest)
    ensures ParseExpr(env, Print(Binary(op, l, r)) + rest, min) ==
            AfterValue(Eval(Binary(op, l, r), env), env, rest, min)
    decreases Binary(op, l, r), 0
  {
    hide PrintAt, ParseExpr, ParseMore, ParseUnary, ApplyBinary, Precedence;
    var p := Precedence(op);
    var tail := PrintAt(r, p + 1) + rest;
    var after := [TSym(BinarySymbol(op))] + tail;
    assert Print(Binary(op, l, r)) + rest == PrintAt(l, p) + after;
    FollowsLeft(op, l, after);
    FollowsRight(op, l, r, rest);
    assert MayFollow(Binary(op, Lit(0), Lit(0)), rest);
    hide Print, Printable, MayFollow, Placed, Level;
    PlacedReads(env, l, p, min, after);
    PlacedReads(env, r, p + 1, p + 1, rest);
    if Eval(l, env).Some? {
      OperatorTaken(env, op, Eval(l, env).value, Eval(r, env), tail, rest, min);
    }
  }

  /** After a condition, both alternatives are read whole. */
  lemma ConditionalTaken(env: Env, left: Value, a: Option<Value>, b: Option<Value>, middle: seq<Token>,
                         last: seq<Token>, rest: seq<Token>)
    requires ParseExpr(env, middle, 0) == AfterValue(a, env, [TSym(Colon)] + last, 0)
    requires ParseExpr(env, last, 0) == AfterValue(b, env, rest, 0)
    requires MayFollow(Conditional(Lit(0), Lit(0), Lit(0)), rest)
    ensures ParseMore(env, left, [TSym(Question)] + middle, 0)
         == (if a.None? || b.None? then None else ParseMore(env, if left.Truth() then a.value else b.value, rest, 0))
  {
    hide ParseExpr, ApplyBinary;
    var question, colon := [TSym(Question)] + middle, [TSym(Colon)] + last;
    assert question[1..] == middle && colon[1..] == last;
    if a.Some? {
      assert ParseMore(env, a.value, colon, 0) == Some((a.value, colon));
      if b.Some? {
        assert ParseMore(env, b.value, rest, 0) == Some((b.value, rest));
      }
    }
  }

  lemma PrintedConditional(c: Expr, x: Expr, y: Expr, rest: seq<Token>)
    requires Printable(c) && Printable(x) && Printable(y)
    ensures Printable(Conditional(c, x, y))
    ensures Print(Conditional(c, x, y)) + rest ==
            PrintAt(c, 1) + ([TSym(Question)] + (PrintAt(x, 0) + ([TSym(Colon)] + (PrintAt(y, 0) + rest))))
  {
    hide PrintAt;
  }

  lemma {:induction false} ConditionalReads(env: Env, c: Expr, x: Expr, y: Expr, rest: seq<Token>)
    requires Printable(c) && Printable(x) && Printable(y) && MayFollow(Conditional(c, x, y), rest)
    ensures ParseExpr(env, Print(Conditional(c, x, y)) + rest, 0) ==
            AfterValue(Eval(Conditional(c, x, y), env), env, rest, 0)
    decreases Conditional(c, x, y), 0
  {
    hide Print, PrintAt, Printable, ParseExpr, ParseMore;
    var last := PrintAt(y, 0) + rest;
    var colon := [TSym(Colon)] + last;
    var middle := PrintAt(x, 0) + colon;
    var question := [TSym(Question)] + middle;
    PrintedConditional(c, x, y, rest);
    PlacedReads(env, c, 1, 0, question);
    PlacedReads(env, x, 0, 0, colon);
    PlacedReads(env, y, 0, 0, rest);
    if Eval(c, env).Some? {
      ConditionalTaken(env, Eval(c, env).value, Eval(x, env), Eval(y, env), middle, last, rest);
    }
  }

  /** Printing any tree and evaluating the tokens gives the tree's value, or fails exactly when it has none. */
  lemma PrintedEvaluates(env: Env, e: Expr)
    requires Printable(e)
    ensures EvalTokens(env, Print(e)) == Eval(e, env)
  {
    ExprReads(env, e, 0, []);
    assert Print(e) + [] == Print(e);
  }

  // ---------------------------------------------------------------- nothing else is accepted

  /** Parsing at this precedence takes nothing more. */
  predicate Stops(min: nat, rest: seq<Token>)
  {
    || rest == [] || !rest[0].TSym?
    || (&& (rest[0].sym == Question ==> min > 0)
        && (AsBinary(rest[0].sym).Some? ==> Precedence(AsBinary(rest[0].sym).value) < min))
  }

  /** What follows may take `e` as its left part without parentheses. */
  predicate MayExtend(e: Expr, rest: seq<Token>)
  {
    || rest == [] || !rest[0].TSym?
    || match e
       case Conditional(_, _, _) => rest[0].sym != Question && AsBinary(rest[0].sym).None?
       case Binary(op, _, _) => AsBinary(rest[0].sym).Some? ==>
           Precedence(AsBinary(rest[0].sym).value) <= Precedence(op)
       case _ => true
  }

  /** `e` is printed as what was read, and has the value that was read. */
  ghost predicate ReadAs(e: Expr, env: Env, ts: seq<Token>, read: Parse)
  {
    Printable(e) && read.Some? && Eval(e, env) == Some(read.value.0) && Print(e) + read.value.1 == ts
  }

  lemma {:induction false} NameIsPrinted(ts: seq<Token>)
    requires ts != [] && ts[0].TId?
    ensures var (parts, rest) := ParseName(ts); PrintName(parts) + rest == ts && parts[0] == ts[0].text
  {
    if |ts| > 2 && ts[1] == TSym(Dot) && ts[2].TId? {
      NameIsPrinted(ts[2..]);
      var (parts, rest) := ParseName(ts[2..]);
      assert ([ts[0].text] + parts)[1..] == parts;
      assert ts == [ts[0], ts[1]] + ts[2..];
    } else {
      assert ts == [ts[0]] + ts[1..];
    }
  }

  lemma {:induction false} UnaryIsPrinted(env: Env, ts: seq<Token>) returns (e: Expr)
    requires ParseUnary(env, ts).Some?
    ensures ReadAs(e, env, ts, ParseUnary(env, ts)) && Level(e) >= UNARY
    decreases |ts|, 0
  {
    hide ApplyUnary, ParseMore, ParseExpr;
    assert ts == [ts[0]] + ts[1..];
    match ts[0]
    case TInt(n) => e := Lit(n);
    case TId(s) =>
      if s == "true" || s == "false" {
        e := BoolLit(s == "true");
      } else {
        NameIsPrinted(ts);
        e := Name(ParseName(ts).0);
      }
    case TSym(sym) =>
      if sym == Open {
        var x := ExprIsPrinted(env, ts[1..], 0);
        e := Paren(x);
        ParenIsPrinted(x, env, ts);
      } else {
        var x := UnaryIsPrinted(env, ts[1..]);
        e := Unary(AsUnary(sym).value, x);
        assert PrintAt(x, UNARY) == Print(x);
      }
  }

  lemma ParenIsPrinted(x: Expr, env: Env, ts: seq<Token>)
    requires ts != [] && ts[0] == TSym(Open) && ParseUnary(env, ts).Some?
    requires ReadAs(x, env, ts[1..], ParseExpr(env, ts[1..], 0))
    ensures ReadAs(Paren(x), env, ts, ParseUnary(env, ts))
  {
    hide ParseExpr;
    var rest := ParseExpr(env, ts[1..], 0).value.1;
    assert ts == [TSym(Open)] + (Print(x) + rest) && rest == [TSym(Close)] + rest[1..];
    assert PrintAt(x, 0) == Print(x);
    assert ts == ([TSym(Open)] + Print(x) + [TSym(Close)]) + rest[1..];
  }

  lemma {:induction false} ExprIsPrinted(env: Env, ts: seq<Token>, min: nat) returns (e: Expr)
    requires ParseExpr(env, ts, min).Some? && min <= UNARY
    ensures ReadAs(e, env, ts, ParseExpr(env, ts, min)) && Level(e) >= min
            && Stops(min, ParseExpr(env, ts, min).value.1)
    decreases |ts|, 2
  {
    hide ParseUnary, ParseMore, Print, Printable, Eval, Stops;
    var left := UnaryIsPrinted(env, ts);
    var rest := ParseUnary(env, ts).value.1;
    UnaryMayExtend(left, rest);
    e := MoreIsPrinted(env, left, ParseUnary(env, ts).value.0, rest, min);
  }

  lemma UnaryMayExtend(e: Expr, rest: seq<Token>)
    requires Level(e) >= UNARY
    ensures MayExtend(e, rest)
  {
  }

  /** What has been read so far, and what follows, are together one longer tree's print. */
  lemma {:induction false} MoreIsPrinted(env: Env, l: Expr, left: Value, ts: seq<Token>, min: nat) returns (e: Expr)
    requires Printable(l) && Eval(l, env) == Some(left) && Level(l) >= min && MayExtend(l, ts)
    requires ParseMore(env, left, ts, min).Some? && min <= UNARY
    ensures ReadAs(e, env, Print(l) + ts, ParseMore(env, left, ts, min)) && Level(e) >= min
    ensures Stops(min, ParseMore(env, left, ts, min).value.1)
    decreases |ts|, 1
  {
    if ts == [] || !ts[0].TSym? {
      e := l;
    } else if ts[0].sym == Question && min == 0 {
      e := ConditionalIsPrinted(env, l, left, ts);
    } else {
      var op := AsBinary(ts[0].sym);
      if op.None? || Precedence(op.value) < min {
        e := l;
      } else {
        e := BinaryIsPrinted(env, l, left, ts, min);
      }
    }
  }

  lemma {:induction false} BinaryIsPrinted(env: Env, l: Expr, left: Value, ts: seq<Token>, min: nat) returns (e: Expr)
    requires Printable(l) && Eval(l, env) == Some(left) && Level(l) >= min && MayExtend(l, ts)
    requires ParseMore(env, left, ts, min).Some? && min <= UNARY
    requires ts != [] && ts[0].TSym? && AsBinary(ts[0].sym).Some? && Precedence(AsBinary(ts[0].sym).value) >= min
    ensures ReadAs(e, env, Print(l) + ts, ParseMore(env, left, ts, min)) && Level(e) >= min
    ensures Stops(min, ParseMore(env, left, ts, min).value.1)
    decreases |ts|, 0
  {
    hide ParseExpr, ApplyBinary, Print, Printable, ReadAs, Stops, MayExtend;
    var op := AsBinary(ts[0].sym).value;
    var right := ParseExpr(env, ts[1..], Precedence(op) + 1);
    var r := ExprIsPrinted(env, ts[1..], Precedence(op) + 1);
    var rest := right.value.1;
    var v := ApplyBinary(op, left, right.value.0).value;
    BinaryJoined(env, op, l, r, left, ts, right);
    e := MoreIsPrinted(env, Binary(op, l, r), v, rest, min);
  }

  lemma BinaryJoined(env: Env, op: BinaryOp, l: Expr, r: Expr, left: Value, ts: seq<Token>, right: Parse)
    requires Printable(l) && Eval(l, env) == Some(left) && MayExtend(l, ts)
    requires ts != [] && ts[0].TSym? && AsBinary(ts[0].sym) == Some(op)
    requires right.Some? && ReadAs(r, env, ts[1..], right) && Level(r) > Precedence(op)
    requires Stops(Precedence(op) + 1, right.value.1)
    ensures var e := Binary(op, l, r);
            && Printable(e) && Eval(e, env) == ApplyBinary(op, left, right.value.0) && Level(e) == Precedence(op)
            && Print(e) + right.value.1 == Print(l) + ts && MayExtend(e, right.value.1)
  {
    hide ApplyBinary;
    LeftTight(l, op, ts);
    assert PrintAt(l, Precedence(op)) == Print(l) && PrintAt(r, Precedence(op) + 1) == Print(r);
    assert ts == [TSym(BinarySymbol(op))] + (Print(r) + right.value.1);
    hide Precedence, Printable, Level, MayExtend, Stops;
    assert Print(Binary(op, l, r)) == Print(l) + ([TSym(BinarySymbol(op))] + Print(r));
  }

  lemma LeftTight(l: Expr, op: BinaryOp, ts: seq<Token>)
    requires MayExtend(l, ts) && ts != [] && ts[0].TSym? && AsBinary(ts[0].sym) == Some(op)
    ensures Level(l) >= Precedence(op)
  {
  }

  lemma {:induction false} ConditionalIsPrinted(env: Env, c: Expr, left: Value, ts: seq<Token>) returns (e: Expr)
    requires Printable(c) && Eval(c, env) == Some(left) && MayExtend(c, ts)
    requires ts != [] && ts[0] == TSym(Question) && ParseMore(env, left, ts, 0).Some?
    ensures ReadAs(e, env, Print(c) + ts, ParseMore(env, left, ts, 0)) && Stops(0, ParseMore(env, left, ts, 0).value.1)
    decreases |ts|, 0
  {
    hide ParseExpr, ApplyBinary, Print, Printable, ReadAs, Stops, MayExtend;
    var yes := ParseExpr(env, ts[1..], 0);
    var x := ExprIsPrinted(env, ts[1..], 0);
    var no := ParseExpr(env, yes.value.1[1..], 0);
    var y := ExprIsPrinted(env, yes.value.1[1..], 0);
    ConditionalJoined(env, c, x, y, left, ts, yes, no);
    e := MoreIsPrinted(env, Conditional(c, x, y), if left.Truth() then yes.value.0 else no.value.0, no.value.1, 0);
  }

  lemma ConditionalJoined(env: Env, c: Expr, x: Expr, y: Expr, left: Value, ts: seq<Token>, yes: Parse, no: Parse)
    requires Printable(c) && Eval(c, env) == Some(left) && MayExtend(c, ts) && ts != [] && ts[0] == TSym(Question)
    requires ReadAs(x, env, ts[1..], yes) && yes.value.1 != [] && yes.value.1[0] == TSym(Colon)
    requires ReadAs(y, env, yes.value.1[1..], no) && Stops(0, no.value.1)
    ensures var e := Conditional(c, x, y);
            && Printable(e) && Eval(e, env) == Some(if left.Truth() then yes.value.0 else no.value.0)
            && Print(e) + no.value.1 == Print(c) + ts && MayExtend(e, no.value.1)
  {
    hide Print, Printable, Precedence;
    var rest := no.value.1;
    PrintedConditional(c, x, y, rest);
    assert PrintAt(c, 1) == Print(c) && PrintAt(x, 0) == Print(x) && PrintAt(y, 0) == Print(y);
    assert yes.value.1 == [TSym(Colon)] + (Print(y) + rest) && ts == [TSym(Question)] + (Print(x) + yes.value.1);
  }

  /** Exactly the prints of trees that have a value are accepted, with that value. */
  lemma AcceptedArePrinted(env: Env, ts: seq<Token>, v: Value)
    ensures EvalTokens(env, ts) == Some(v) <==> exists e :: Printable(e) && Print(e) == ts && Eval(e, env) == Some(v)
  {
    if EvalTokens(env, ts) == Some(v) {
      var e := ExprIsPrinted(env, ts, 0);
      assert Print(e) + [] == Print(e);
    }
    forall e | Printable(e) && Print(e) == ts && Eval(e, env) == Some(v)
      ensures EvalTokens(env, ts) == Some(v)
    {
      PrintedEvaluates(env, e);
    }
  }

  // ---------------------------------------------------------------- more names known change nothing

  /** What is known in `small` is the same in `large`. */
  ghost predicate Within(small: Env, large: Env)
  {
    forall parts :: small(parts).Some? ==> large(parts) == small(parts)
  }

  lemma {:induction false} UnaryMonotone(small: Env, large: Env, ts: seq<Token>)
    requires Within(small, large) && ParseUnary(small, ts).Some?
    ensures ParseUnary(large, ts) == ParseUnary(small, ts)
    decreases |ts|, 0
  {
    hide ParseExpr, ApplyUnary;
    match ts[0]
    case TSym(sym) =>
      if sym == Open {
        ExprMonotone(small, large, ts[1..], 0);
      } else {
        UnaryMonotone(small, large, ts[1..]);
      }
    case _ =>
  }

  lemma {:induction false} ExprMonotone(small: Env, large: Env, ts: seq<Token>, min: nat)
    requires Within(small, large) && ParseExpr(small, ts, min).Some?
    ensures ParseExpr(large, ts, min) == ParseExpr(small, ts, min)
    decreases |ts|, 2
  {
    hide ParseUnary, ParseMore;
    UnaryMonotone(small, large, ts);
    var (left, rest) := ParseUnary(small, ts).value;
    MoreMonotone(small, large, left, rest, min);
  }

  lemma {:induction false} MoreMonotone(small: Env, large: Env, left: Value, ts: seq<Token>, min: nat)
    requires Within(small, large) && ParseMore(small, left, ts, min).Some?
    ensures ParseMore(large, left, ts, min) == ParseMore(small, left, ts, min)
    decreases |ts|, 1
  {
    hide ParseExpr, ApplyBinary, Within;
    if ts == [] || !ts[0].TSym? {
    } else if ts[0].sym == Question && min == 0 {
      ExprMonotone(small, large, ts[1..], 0);
      var (a, rest1) := ParseExpr(small, ts[1..], 0).value;
      ExprMonotone(small, large, rest1[1..], 0);
      var (b, rest2) := ParseExpr(small, rest1[1..], 0).value;
      MoreMonotone(small, large, if left.Truth() then a else b, rest2, min);
    } else {
      var op := AsBinary(ts[0].sym);
      if op.Some? && Precedence(op.value) >= min {
        ExprMonotone(small, large, ts[1..], Precedence(op.value) + 1);
        var (right, rest) := ParseExpr(small, ts[1..], Precedence(op.value) + 1).value;
        MoreMonotone(small, large, ApplyBinary(op.value, left, right).value, rest, min);
      }
    }
  }
}
