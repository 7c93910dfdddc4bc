/** Which commands are batched, and which arrays are copied with them. */
module VkPlan {
  import opened Wrappers
  import opened VkTypes
  import R = VkRecord

  /** A command's parameter; `stride` where its elements are not packed. */
  datatype Parameter = Parameter(name: string, typ: string, stars: nat, constant: bool, sized: bool, fixed: Option<nat>,
                                 len: Option<string>, stride: bool) {
    predicate Pointer() { stars > 0 || sized }
  }

  datatype Signature = Signature(name: string, returned: string, params: seq<Parameter>)

  /** The last parameter of a name. */
  function IndexOf(params: seq<Parameter>, name: string): (r: Option<nat>)
    ensures r.Some? ==> r.value < |params| && params[r.value].name == name
  {
    if params == [] then None
    else if params[|params| - 1].name == name then Some(|params| - 1)
    else IndexOf(params[..|params| - 1], name)
  }

  /** A parameter that travels as an integer. */
  predicate TravelsAsInt(reg: Registry, p: Parameter)
  {
    var t := Resolve(reg, p.typ);
    !p.Pointer() &&
    match CategoryOf(reg, t)
    case Some(Enum) => true
    case Some(Bitmask) => true
    case Some(BaseType) => t in reg.intBases
    case None => t in reg.basic && t != "float" && t != "double"
    case _ => false
  }

  function CountOf(reg: Registry, sig: Signature, p: Parameter): Option<R.Count>
  {
    if p.fixed.Some? then Some(R.Fixed(p.fixed.value))
    else if p.len.None? then Some(R.Fixed(1))
    else
      var j :- IndexOf(sig.params, p.len.value);
      if TravelsAsInt(reg, sig.params[j]) then Some(R.Param(j)) else None
  }

  /** The array a pointer parameter points at, where a copy of its bytes is enough. */
  function CopyFor(reg: Registry, l: Layout, sig: Signature, i: nat): Option<R.Copy>
    requires i < |sig.params|
  {
    var p := sig.params[i];
    if !p.constant || p.stars > 1 || p.stride then None
    else
      var count :- CountOf(reg, sig, p);
      if Resolve(reg, p.typ) == "void" then
        if p.len.None? || p.fixed.Some? then None else Some(R.Copy(i, count, 1))
      else if Plain(reg, Resolve(reg, p.typ), {}) then Some(R.Copy(i, count, l.size(p.typ)))
      else None
  }

  /** Returns nothing, records into a command buffer, and is not written by hand. */
  predicate Records(reg: Registry, sig: Signature, special: set<string>)
    requires sig.params != []
  {
    && sig.name !in special && "vkCmd" <= sig.name
    && sig.returned == "void" && Resolve(reg, sig.params[0].typ) == "VkCommandBuffer"
  }

  /** A parameter that is a pointer or an array. */
  ghost predicate PointsAt(sig: Signature, i: nat)
    requires i < |sig.params|
  {
    sig.params[i].stars > 0 || sig.params[i].sized
  }

  /** Exactly the pointer parameters below `n`, in order, each with its copy. */
  ghost predicate CopiesUpTo(reg: Registry, l: Layout, sig: Signature, plan: seq<R.Copy>, n: nat)
    requires n <= |sig.params|
  {
    && (forall k :: 0 <= k < |plan| ==>
          0 < plan[k].arg < n && PointsAt(sig, plan[k].arg) &&
            CopyFor(reg, l, sig, plan[k].arg) == Some(plan[k]))
    && (forall j, k :: 0 <= j < k < |plan| ==> plan[j].arg < plan[k].arg)
    && (forall i :: 0 < i < n && PointsAt(sig, i) ==> exists k :: 0 <= k < |plan| && plan[k].arg == i)
  }

  /** Batched exactly when it records and every array it points at can be copied; then each one is. */
  method BatchPlan(reg: Registry, l: Layout, sig: Signature, special: set<string>) returns (plan: Option<seq<R.Copy>>)
    requires sig.params != []
    ensures plan.Some? <==>
            && "vkCmd" <= sig.name && sig.name !in special && sig.returned == "void"
            && Resolve(reg, sig.params[0].typ) == "VkCommandBuffer"
            && forall i :: 0 < i < |sig.params| && PointsAt(sig, i) ==> CopyFor(reg, l, sig, i).Some?
    ensures plan.Some? ==> CopiesUpTo(reg, l, sig, plan.value, |sig.params|)
  {
    hide CopyFor, Resolve;
    if !Records(reg, sig, special) {
      return None;
    }
    var copies := [];
    for i := 1 to |sig.params|
      invariant CopiesUpTo(reg, l, sig, copies, i)
      invariant forall k :: 0 < k < i && PointsAt(sig, k) ==> CopyFor(reg, l, sig, k).Some?
    {
      if sig.params[i].Pointer() {
        var copy := CopyFor(reg, l, sig, i);
        if copy.None? {
          return None;
        }
        CopyArg(reg, l, sig, i);
        OneMore(reg, l, sig, copies, i, copy.value);
        copies := copies + [copy.value];
      }
    }
    plan := Some(copies);
  }

  lemma CopyArg(reg: Registry, l: Layout, sig: Signature, i: nat)
    requires i < |sig.params| && CopyFor(reg, l, sig, i).Some?
    ensures CopyFor(reg, l, sig, i).value.arg == i
  {
  }

  lemma OneMore(reg: Registry, l: Layout, sig: Signature, plan: seq<R.Copy>, i: nat, copy: R.Copy)
    requires 0 < i < |sig.params| && CopiesUpTo(reg, l, sig, plan, i) && PointsAt(sig, i)
    requires CopyFor(reg, l, sig, i) == Some(copy) && copy.arg == i
    ensures CopiesUpTo(reg, l, sig, plan + [copy], i + 1)
  {
    hide CopyFor;
    var more := plan + [copy];
    assert more[|plan|] == copy;
    forall j | 0 < j < i + 1 && PointsAt(sig, j)
      ensures exists k :: 0 <= k < |more| && more[k].arg == j
    {
      if j < i {
        var k :| 0 <= k < |plan| && plan[k].arg == j;
        assert more[k].arg == j;
      }
    }
  }

  /** Every plan is one the record's layout can carry: no array is copied twice, and no count is itself copied. */
  lemma PlansAreWellPlanned(reg: Registry, l: Layout, sig: Signature, plan: seq<R.Copy>)
    requires sig.params != [] && |sig.params| < 0x1_0000_0000 && CopiesUpTo(reg, l, sig, plan, |sig.params|)
    ensures R.WellPlanned(R.Command(|sig.params|, plan))
  {
    forall i, j | 0 <= i < |plan| && 0 <= j < |plan| && plan[i].count.Param?
      ensures plan[i].count.j < |sig.params| && plan[i].count.j != plan[j].arg
    {
      CountIsInt(reg, l, sig, plan[i].arg);
    }
  }

  lemma CountIsInt(reg: Registry, l: Layout, sig: Signature, i: nat)
    requires i < |sig.params| && CopyFor(reg, l, sig, i).Some? && CopyFor(reg, l, sig, i).value.count.Param?
    ensures var j := CopyFor(reg, l, sig, i).value.count.j; j < |sig.params| && !PointsAt(sig, j)
  {
  }

  // ---------------------------------------------------------------- how much is copied

  /** The parameter a length names: the last of that name. */
  ghost predicate LastNamed(params: seq<Parameter>, name: string, j: int)
  {
    0 <= j < |params| && params[j].name == name && forall k :: j < k < |params| ==> params[k].name != name
  }

  /**
   * How many elements the caller says an array has: as many as its type says; else what it passes for
   * the parameter the length names; else one.
   */
  ghost function Elements(sig: Signature, i: nat, args: seq<nat>): nat
    requires i < |sig.params| == |args|
  {
    var p := sig.params[i];
    if p.fixed.Some? then p.fixed.value
    else if p.len.None? then 1
    else if exists j :: LastNamed(sig.params, p.len.value, j) then
      var j :| LastNamed(sig.params, p.len.value, j);
      args[j]
    else 0
  }

  /** A parameter whose argument is an integer: no pointer, and an enum, a bitmask or an integer type. */
  ghost predicate IsInteger(reg: Registry, p: Parameter)
  {
    var t := Resolve(reg, p.typ);
    && p.stars == 0 && !p.sized
    && (CategoryOf(reg, t) in {Some(Enum), Some(Bitmask)}
        || (CategoryOf(reg, t) == Some(BaseType) && t in reg.intBases)
        || (CategoryOf(reg, t) == None && t in reg.basic && t !in {"float", "double"}))
  }

  lemma {:induction false} IndexOfFinds(params: seq<Parameter>, name: string)
    ensures match IndexOf(params, name)
            case Some(j) => LastNamed(params, name, j)
            case None => forall j :: !LastNamed(params, name, j)
    decreases |params|
  {
    if params != [] && params[|params| - 1].name != name {
      var front := params[..|params| - 1];
      IndexOfFinds(front, name);
      forall j | LastNamed(params, name, j)
        ensures LastNamed(front, name, j)
      {
      }
    }
  }

  /**
   * An array can be copied exactly when it is of constants, no deeper than one pointer, packed, of a
   * length that is fixed, one, or given by an integer parameter, and of plain elements, or of bytes
   * where it is of no type; the copy is then all its elements.
   */
  lemma CopyExactly(reg: Registry, l: Layout, sig: Signature, i: nat, args: seq<nat>)
    requires i < |sig.params| == |args|
    ensures var p, c := sig.params[i], CopyFor(reg, l, sig, i);
            var t := Resolve(reg, p.typ);
            && (c.Some? <==>
                && p.constant && p.stars <= 1 && !p.stride
                && (p.fixed.None? && p.len.Some? ==>
                      exists j :: LastNamed(sig.params, p.len.value, j) && IsInteger(reg, sig.params[j]))
                && if t == "void" then p.fixed.None? && p.len.Some? else Plain(reg, t, {}))
            && (c.Some? ==> c.value.arg == i && (c.value.count.Param? ==> c.value.count.j < |args|)
                            && R.Extent(c.value, args) ==
                               Elements(sig, i, args) * if t == "void" then 1 else l.size(p.typ))
  {
    hide Plain, Resolve, CategoryOf;
    var p := sig.params[i];
    if p.fixed.None? && p.len.Some? {
      IndexOfFinds(sig.params, p.len.value);
    }
  }

  /** The k-th element of a copied array is the value the caller's array held, to any depth, wherever the copy lies. */
  lemma CopiedElementMeans(reg: Registry, l: Layout, sig: Signature, i: nat, args: seq<nat>, k: nat,
                           ma: R.Memory, a: nat, mb: R.Memory, b: nat, depth: nat)
    requires Fits(reg, l) && i < |sig.params| == |args| && k < Elements(sig, i, args)
    requires CopyFor(reg, l, sig, i).Some? && Resolve(reg, sig.params[i].typ) != "void"
    requires var c := CopyFor(reg, l, sig, i).value;
             && (c.count.Param? ==> c.count.j < |args|)
             && R.Peek(ma, a, R.Extent(c, args)) == R.Peek(mb, b, R.Extent(c, args))
    ensures var t := Resolve(reg, sig.params[i].typ);
            Deep(reg, l, t, a + k * l.size(t), ma, depth) == Deep(reg, l, t, b + k * l.size(t), mb, depth)
  {
    hide Deep, Plain, Resolve, Elements;
    CopyExactly(reg, l, sig, i, args);
    var t := Resolve(reg, sig.params[i].typ);
    ElementsCopied(reg, l, t, {}, Elements(sig, i, args), k, ma, a, mb, b, depth);
  }
}
