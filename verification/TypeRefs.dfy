/**
 * Type references with nested type arguments. The lexer reads two closing brackets as one `>>`, so
 * closing an argument list may leave half a token behind for the list around it.
 */
module TypeRefs {
  import opened Wrappers

  datatype Token = TId(text: string) | TOpen | TClose | TCloseClose | TComma | TOther(text: string)

  /** A name with type arguments; dimensions and annotations are not part of this model. */
  datatype TypeRef = TypeRef(name: string, args: seq<TypeRef>)

  // ---------------------------------------------------------------- printing

  function Print(t: TypeRef): (ts: seq<Token>)
    ensures ts != [] && ts[0] == TId(t.name)
    decreases t, 0
  {
    if t.args == [] then [TId(t.name)] else [TId(t.name), TOpen] + (PrintArgs(t.args) + [TClose])
  }

  function PrintArgs(args: seq<TypeRef>): (ts: seq<Token>)
    requires args != []
    ensures ts != [] && ts[0] == TId(args[0].name)
    decreases args
  {
    if |args| == 1 then Print(args[0]) else Print(args[0]) + ([TComma] + PrintArgs(args[1..]))
  }

  /** The tokens with every `>>` taken apart: what the lexer's joining loses nothing of. */
  function Split(ts: seq<Token>): seq<Token>
  {
    if ts == [] then []
    else if ts[0] == TCloseClose then [TClose, TClose] + Split(ts[1..])
    else [ts[0]] + Split(ts[1..])
  }

  // ---------------------------------------------------------------- parsing

  type Parse<T> = Option<(T, seq<Token>)>

  /** Take one closing bracket; of a `>>` the second half stays. */
  function CloseOne(ts: seq<Token>): Option<seq<Token>>
  {
    if ts == [] then None
    else if ts[0] == TClose then Some(ts[1..])
    else if ts[0] == TCloseClose then Some([TClose] + ts[1..])
    else None
  }

  function ParseType(ts: seq<Token>): (r: Parse<TypeRef>)
    ensures r.Some? ==> |r.value.1| < |ts|
    decreases |ts|, 0
  {
    if ts == [] || !ts[0].TId? then None
    else if |ts| > 1 && ts[1] == TOpen then
      var (args, rest) :- ParseArgs(ts[2..]);
      var after :- CloseOne(rest);
      Some((TypeRef(ts[0].text, args), after))
    else Some((TypeRef(ts[0].text, []), ts[1..]))
  }

  function ParseArgs(ts: seq<Token>): (r: Parse<seq<TypeRef>>)
    ensures r.Some? ==> |r.value.1| < |ts| && r.value.0 != []
    decreases |ts|, 1
  {
    var (t, rest) :- ParseType(ts);
    if rest != [] && rest[0] == TComma then
      var (more, after) :- ParseArgs(rest[1..]);
      Some(([t] + more, after))
    else Some(([t], rest))
  }

  // ---------------------------------------------------------------- any joining of brackets parses

  lemma SplitFirst(ts: seq<Token>)
    ensures ts == [] <==> Split(ts) == []
    ensures ts != [] ==> Split(ts)[0] == if ts[0] == TCloseClose then TClose else ts[0]
    ensures ts != [] && ts[0] != TCloseClose ==> Split(ts)[1..] == Split(ts[1..])
  {
  }

  /** A first token that is not a bracket is itself after splitting. */
  lemma SplitHead(ts: seq<Token>, head: Token, tail: seq<Token>)
    requires Split(ts) == [head] + tail && head != TClose
    ensures ts != [] && ts[0] == head && Split(ts[1..]) == tail
  {
    SplitFirst(ts);
    assert Split(ts)[0] == head && Split(ts)[1..] == tail;
  }

  /** Closing takes one bracket off, however it was lexed. */
  lemma ClosesOne(ts: seq<Token>, tail: seq<Token>)
    requires Split(ts) == [TClose] + tail
    ensures CloseOne(ts).Some? && Split(CloseOne(ts).value) == tail
  {
    assert Split(ts)[0] == TClose && Split(ts)[1..] == tail;
    if ts[0] == TCloseClose {
      assert Split([TClose] + ts[1..]) == [TClose] + Split(ts[1..]) by {
        assert ([TClose] + ts[1..])[1..] == ts[1..];
      }
      assert Split(ts)[1..] == [TClose] + Split(ts[1..]);
    } else {
      assert Split(ts)[1..] == Split(ts[1..]);
    }
  }

  /** Whatever follows a type does not start an argument list. */
  predicate Ends(after: seq<Token>)
  {
    after != [] ==> after[0] != TOpen
  }

  lemma {:induction false} TypeReads(t: TypeRef, ts: seq<Token>, after: seq<Token>)
    requires Split(ts) == Print(t) + after && Ends(after)
    ensures ParseType(ts).Some? && ParseType(ts).value.0 == t && Split(ParseType(ts).value.1) == after
    decreases t, 0
  {
    var tail := Print(t)[1..] + after;
    assert Print(t) + after == [TId(t.name)] + tail;
    SplitHead(ts, TId(t.name), tail);
    if t.args == [] {
      assert tail == after;
      SplitFirst(ts[1..]);
      assert t == TypeRef(t.name, []);
    } else {
      var inner := PrintArgs(t.args) + ([TClose] + after);
      assert tail == [TOpen] + inner;
      SplitHead(ts[1..], TOpen, inner);
      assert ts[1..][1..] == ts[2..];
      ArgsRead(t.args, ts[2..], [TClose] + after);
      ClosesOne(ParseArgs(ts[2..]).value.1, after);
    }
  }

  lemma {:induction false} ArgsRead(args: seq<TypeRef>, ts: seq<Token>, after: seq<Token>)
    requires args != [] && Split(ts) == PrintArgs(args) + after && after != [] && after[0] == TClose
    ensures ParseArgs(ts).Some? && ParseArgs(ts).value.0 == args && Split(ParseArgs(ts).value.1) == after
    decreases args
  {
    var more := if |args| == 1 then after else [TComma] + (PrintArgs(args[1..]) + after);
    assert PrintArgs(args) + after == Print(args[0]) + more;
    TypeReads(args[0], ts, more);
    var rest := ParseType(ts).value.1;
    if |args| == 1 {
      SplitFirst(rest);
      assert [args[0]] == args;
    } else {
      SplitHead(rest, TComma, PrintArgs(args[1..]) + after);
      ArgsRead(args[1..], rest[1..], after);
      assert [args[0]] + args[1..] == args;
    }
  }

  /** A printed type parses back to itself whichever of its closing brackets the lexer joined. */
  lemma JoinedBracketsParse(t: TypeRef, ts: seq<Token>)
    requires Split(ts) == Print(t)
    ensures ParseType(ts) == Some((t, []))
  {
    assert Print(t) + [] == Print(t);
    TypeReads(t, ts, []);
    var rest := ParseType(ts).value.1;
    assert rest != [] ==> Split(rest) != [];
  }

  // ---------------------------------------------------------------- the parser

  class Parser {
    const t: array<Token>
    var i: nat

    ghost predicate Valid()
      reads this
    {
      i <= t.Length
    }

    /** The tokens not yet consumed. */
    ghost function Rest(): seq<Token>
      requires Valid()
      reads this, t
    {
      t[i..]
    }

    constructor (t: array<Token>)
      ensures this.t == t && i == 0
    {
      this.t := t;
      i := 0;
    }

    /** Consumes a `>`, or turns a `>>` into the `>` that is left of it. */
    method CloseAngle() returns (ok: bool)
      requires Valid()
      modifies this, t
      ensures Valid() && i >= old(i)
      ensures match CloseOne(old(Rest()))
              case None => !ok && Rest() == old(Rest())
              case Some(rest) => ok && Rest() == rest
    {
      if i == t.Length {
        return false;
      }
      ghost var rest := t[i..];
      if t[i] == TClose {
        i := i + 1;
        assert rest[1..] == t[i..];
        return true;
      } else if t[i] == TCloseClose {
        t[i] := TClose;
        assert t[i..] == [TClose] + rest[1..];
        return true;
      }
      return false;
    }

    method Type() returns (r: Option<TypeRef>)
      requires Valid()
      modifies this, t
      ensures Valid() && i >= old(i)
      ensures match ParseType(old(Rest()))
              case None => r.None?
              case Some((ty, rest)) => r == Some(ty) && Rest() == rest
      ensures r.Some? ==> i > old(i)
      decreases t.Length - i, 0
    {
      if i == t.Length || !t[i].TId? {
        return None;
      }
      ghost var rest := t[i..];
      var name := t[i].text;
      i := i + 1;
      assert rest[1..] == t[i..];
      if i == t.Length || t[i] != TOpen {
        return Some(TypeRef(name, []));
      }
      i := i + 1;
      assert rest[2..] == t[i..];
      var args :- Args();
      var ok := CloseAngle();
      if !ok {
        return None;
      }
      return Some(TypeRef(name, args));
    }

    method Args() returns (r: Option<seq<TypeRef>>)
      requires Valid()
      modifies this, t
      ensures Valid() && i >= old(i)
      ensures match ParseArgs(old(Rest()))
              case None => r.None?
              case Some((args, rest)) => r == Some(args) && Rest() == rest
      decreases t.Length - i, 1
    {
      hide ParseType;
      ghost var want := ParseArgs(t[i..]);
      var args: seq<TypeRef> := [];
      NoArgsYet(want);
      while true
        invariant Valid() && i >= old(i)
        invariant ArgsSoFar(want, args, ParseArgs(t[i..]))
        decreases t.Length - i
      {
        ghost var had := args;
        var arg :- Type();
        args := args + [arg];
        if i < t.Length && t[i] == TComma {
          ghost var here := t[i..];
          i := i + 1;
          assert here[1..] == t[i..];
          OneMoreArg(had, arg, ParseArgs(t[i..]));
        } else {
          return Some(args);
        }
      }
    }
  }

  lemma NoArgsYet(want: Parse<seq<TypeRef>>)
    ensures ArgsSoFar(want, [], want)
  {
    if want.Some? {
      assert [] + want.value.0 == want.value.0;
    }
  }

  lemma OneMoreArg(had: seq<TypeRef>, arg: TypeRef, rest: Parse<seq<TypeRef>>)
    ensures rest.Some? ==> had + ([arg] + rest.value.0) == had + [arg] + rest.value.0
  {
  }

  /** The whole list is the arguments so far, then what parsing the rest gives. */
  ghost predicate ArgsSoFar(want: Parse<seq<TypeRef>>, args: seq<TypeRef>, rest: Parse<seq<TypeRef>>)
  {
    match rest
    case None => want.None?
    case Some((more, after)) => want == Some((args + more, after))
  }
}
