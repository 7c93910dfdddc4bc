/** The search that refuses a parcelable or union holding itself by value. */
module ByValue {
  import opened Wrappers

  type DeclId = string

  /** The parcelables and unions, each with the types of its by-value fields, in order. */
  type Model = map<DeclId, seq<DeclId>>

  ghost predicate WellFormed(m: Model)
  {
    forall d, e :: d in m && e in m[d] ==> e in m
  }

  /** A chain of declarations, each holding the next by value. */
  ghost predicate IsPath(m: Model, p: seq<DeclId>)
  {
    |p| > 1 && forall i :: 0 <= i < |p| - 1 ==> p[i] in m && p[i + 1] in m[p[i]]
  }

  ghost predicate Holds(m: Model, d: DeclId, e: DeclId)
  {
    exists p :: IsPath(m, p) && p[0] == d && p[|p| - 1] == e
  }

  /** No value is part of itself. */
  ghost predicate Acyclic(m: Model)
  {
    forall d :: d in m ==> !Holds(m, d, d)
  }

  lemma HoldsField(m: Model, d: DeclId, e: DeclId)
    requires d in m && e in m[d]
    ensures Holds(m, d, e)
  {
    assert IsPath(m, [d, e]);
  }

  lemma HoldsThrough(m: Model, d: DeclId, e: DeclId, f: DeclId)
    requires Holds(m, d, e) && Holds(m, e, f)
    ensures Holds(m, d, f)
  {
    var p :| IsPath(m, p) && p[0] == d && p[|p| - 1] == e;
    var q :| IsPath(m, q) && q[0] == e && q[|q| - 1] == f;
    var r := p + q[1..];
    forall i | 0 <= i < |r| - 1
      ensures r[i] in m && r[i + 1] in m[r[i]]
    {
      if i < |p| - 1 {
        assert r[i] == p[i] && r[i + 1] == p[i + 1];
      } else {
        assert r[i] == q[i - (|p| - 1)] && r[i + 1] == q[i - (|p| - 1) + 1];
      }
    }
    assert IsPath(m, r) && r[0] == d && r[|r| - 1] == f;
  }

  /** A set closed under the fields of its members, holding the fields of `d`, holds all that `d` holds. */
  lemma {:induction false} ClosedHoldsAll(m: Model, s: set<DeclId>, p: seq<DeclId>)
    requires IsPath(m, p)
    requires forall e :: e in m[p[0]] ==> e in s
    requires forall x, e :: x in s && x in m && e in m[x] ==> e in s
    ensures p[|p| - 1] in s
    decreases |p|
  {
    assert p[1] in m[p[0]];
    if |p| > 2 {
      var q := p[1..];
      forall i | 0 <= i < |q| - 1
        ensures q[i] in m && q[i + 1] in m[q[i]]
      {
        assert q[i] == p[i + 1] && q[i + 1] == p[i + 2];
      }
      ClosedHoldsAll(m, s, q);
    }
  }

  // ---------------------------------------------------------------- the search

  lemma NotHeld(m: Model, d: DeclId, seen: set<DeclId>)
    requires d in m && d !in seen
    requires forall e :: e in m[d] ==> e in seen
    requires forall x, e :: x in seen && x in m && e in m[x] ==> e in seen
    ensures !Holds(m, d, d)
  {
    if p :| IsPath(m, p) && p[0] == d && p[|p| - 1] == d {
      ClosedHoldsAll(m, seen, p);
    }
  }

  /** Whether `d` holds itself: a depth-first search from `d` that never looks past `d` itself. */
  method HoldsItself(m: Model, d: DeclId) returns (r: bool)
    requires WellFormed(m) && d in m
    ensures r == Holds(m, d, d)
  {
    var stack, seen: set<DeclId> := [d], {};
    ghost var done: set<DeclId> := {};
    while stack != []
      invariant forall x :: x in stack ==> x == d || x in seen
      invariant d !in seen && seen <= m.Keys
      invariant forall x :: x in seen ==> Holds(m, d, x)
      invariant forall x :: x == d || x in seen ==> x in stack || x in done
      invariant forall x, e :: x in done && x in m && e in m[x] ==> e in seen
      invariant done <= seen + {d}
      decreases m.Keys - seen, |stack|
    {
      var x := stack[|stack| - 1];
      ghost var waiting := stack;
      stack := stack[..|stack| - 1];
      assert waiting == stack + [x];
      ghost var had, popped := seen, stack;
      for k := 0 to |m[x]|
        invariant had <= seen <= m.Keys && d !in seen
        invariant seen == had ==> stack == popped
        invariant forall y :: y in stack <==> y in popped || y in seen - had
        invariant forall y :: y in seen ==> Holds(m, d, y)
        invariant forall j :: 0 <= j < k ==> m[x][j] in seen
      {
        var e := m[x][k];
        HoldsField(m, x, e);
        if x != d {
          HoldsThrough(m, d, x, e);
        }
        if e == d {
          return true;
        }
        if e !in seen {
          seen := seen + {e};
          stack := stack + [e];
        }
      }
      done := done + {x};
    }
    NotHeld(m, d, seen);
    return false;
  }

  /** A model is accepted exactly when containment by value has no cycle. */
  method CheckRecursion(m: Model) returns (accepted: bool)
    requires WellFormed(m)
    ensures accepted == Acyclic(m)
  {
    var rest := m.Keys;
    while rest != {}
      invariant rest <= m.Keys
      invariant forall d :: d in m && d !in rest ==> !Holds(m, d, d)
      decreases |rest|
    {
      var d :| d in rest;
      var bad := HoldsItself(m, d);
      if bad {
        return false;
      }
      rest := rest - {d};
    }
    return true;
  }

  // ---------------------------------------------------------------- what acceptance gives

  /** How many declarations `d` holds, however deep. */
  ghost function Rank(m: Model, d: DeclId): nat
  {
    |set e | e in m && Holds(m, d, e)|
  }

  /** In an accepted model every by-value field is of strictly lower rank: layout by size terminates. */
  lemma RankDecreases(m: Model, d: DeclId, e: DeclId)
    requires WellFormed(m) && Acyclic(m) && d in m && e in m[d]
    ensures Rank(m, e) < Rank(m, d)
  {
    var ofE := set x | x in m && Holds(m, e, x);
    var ofD := set x | x in m && Holds(m, d, x);
    HoldsField(m, d, e);
    forall x | x in ofE
      ensures x in ofD
    {
      HoldsThrough(m, d, e, x);
    }
    assert ofE <= ofD - {e};
    SubsetSize(ofE, ofD - {e});
  }

  /** And a rank that decreases along every field is possible only in an accepted model. */
  lemma {:induction false} RankedIsAcyclic(m: Model, rank: map<DeclId, nat>)
    requires WellFormed(m) && rank.Keys == m.Keys
    requires forall d, e :: d in m && e in m[d] ==> rank[e] < rank[d]
    ensures Acyclic(m)
  {
    forall d | d in m
      ensures !Holds(m, d, d)
    {
      if Holds(m, d, d) {
        var p :| IsPath(m, p) && p[0] == d && p[|p| - 1] == d;
        RankAlong(m, rank, p);
      }
    }
  }

  lemma {:induction false} RankAlong(m: Model, rank: map<DeclId, nat>, p: seq<DeclId>)
    requires WellFormed(m) && rank.Keys == m.Keys && IsPath(m, p)
    requires forall d, e :: d in m && e in m[d] ==> rank[e] < rank[d]
    ensures p[|p| - 1] in m && rank[p[|p| - 1]] < rank[p[0]]
    decreases |p|
  {
    assert p[1] in m[p[0]];
    if |p| > 2 {
      var q := p[1..];
      forall i | 0 <= i < |q| - 1
        ensures q[i] in m && q[i + 1] in m[q[i]]
      {
        assert q[i] == p[i + 1] && q[i + 1] == p[i + 2];
      }
      RankAlong(m, rank, q);
    }
  }
}
