/** Registry types: what is reachable from one, and when a copy of a value's bytes is the value. */
module VkTypes {
  import opened Wrappers
  import opened Bytes
  import opened VkRecord

  datatype Category = Enum | Bitmask | Handle | BaseType | Struct | Union | OtherCategory

  /** A struct member. `starred` where its declaration has a '*'; `fixed` is a constant array length. */
  datatype Member = Member(name: string, typ: string, starred: bool, sized: bool, fixed: Option<nat>) {
    predicate Pointer() { starred || sized }
    function Elements(): nat { if fixed.Some? then fixed.value else 1 }
  }

  datatype TypeDef = TypeDef(category: Option<Category>, alias: Option<string>, members: seq<Member>)

  /** The registry, with the scalar types the generator knows and the dispatchable handles. */
  datatype Registry = Registry(types: map<string, TypeDef>, basic: set<string>, intBases: set<string>,
                               dispatchable: set<string>, exempt: set<string>)

  // ---------------------------------------------------------------- aliases and categories

  function ResolveFrom(reg: Registry, name: string, seen: set<string>): string
    decreases reg.types.Keys - seen
  {
    if name in reg.types && reg.types[name].alias.Some? && name !in seen
    then ResolveFrom(reg, reg.types[name].alias.value, seen + {name})
    else name
  }

  function Resolve(reg: Registry, name: string): string
  {
    ResolveFrom(reg, name, {})
  }

  predicate Aliased(reg: Registry, name: string)
  {
    name in reg.types && reg.types[name].alias.Some?
  }

  /** Each name on the path but the last is an alias of the next. */
  ghost predicate AliasPath(reg: Registry, path: seq<string>)
  {
    path != [] && forall i :: 0 <= i < |path| - 1 ==>
        Aliased(reg, path[i]) && path[i + 1] == reg.types[path[i]].alias.value
  }

  /** The last name of the path is no alias, unless it is one the path has been through. */
  ghost predicate EndsAt(reg: Registry, path: seq<string>, through: set<string>, r: string)
  {
    && AliasPath(reg, path) && path[|path| - 1] == r
    && (Aliased(reg, r) <==> r in path[..|path| - 1] || r in through)
  }

  lemma {:induction false} ResolveFromEnds(reg: Registry, name: string, seen: set<string>) returns (path: seq<string>)
    requires forall s :: s in seen ==> Aliased(reg, s)
    ensures EndsAt(reg, path, seen, ResolveFrom(reg, name, seen)) && path[0] == name
    decreases reg.types.Keys - seen
  {
    if Aliased(reg, name) && name !in seen {
      var rest := ResolveFromEnds(reg, reg.types[name].alias.value, seen + {name});
      path := [name] + rest;
      assert path[..|path| - 1] == [name] + rest[..|rest| - 1];
    } else {
      path := [name];
    }
  }

  /** Aliases are followed to a name that is none, or round a cycle of them to a name seen before. */
  method ResolveAlias(reg: Registry, name: string) returns (r: string)
    ensures r == Resolve(reg, name)
    ensures exists path :: EndsAt(reg, path, {}, r) && path[0] == name
  {
    ghost var path := ResolveFromEnds(reg, name, {});
    r := name;
    var seen := {};
    while r in reg.types && reg.types[r].alias.Some? && r !in seen
      invariant ResolveFrom(reg, r, seen) == Resolve(reg, name)
      decreases reg.types.Keys - seen
    {
      seen := seen + {r};
      r := reg.types[r].alias.value;
    }
  }

  /** The category of an already resolved name. */
  function CategoryOf(reg: Registry, t: string): Option<Category>
  {
    if t in reg.types then reg.types[t].category else None
  }

  function Members(reg: Registry, t: string): seq<Member>
  {
    if t in reg.types then reg.types[t].members else []
  }

  predicate Aggregate(reg: Registry, t: string)
  {
    CategoryOf(reg, t) == Some(Struct) || CategoryOf(reg, t) == Some(Union)
  }

  // ---------------------------------------------------------------- plain data

  /** No pointer anywhere in it and no dispatchable handle, as the generator decides it. */
  predicate Plain(reg: Registry, name: string, seen: set<string>)
    decreases reg.types.Keys - seen
  {
    var t := Resolve(reg, name);
    if t in seen then false
    else match CategoryOf(reg, t)
      case Some(Enum) => true
      case Some(Bitmask) => true
      case Some(Handle) => t !in reg.dispatchable
      case Some(BaseType) => t in reg.intBases
      case None => t in reg.basic
      case Some(OtherCategory) => false
      case _ =>
        && Members(reg, t) != []
        && (forall m :: m in Members(reg, t) ==> !m.Pointer() || (m.fixed.Some? && !m.starred))
        && (forall m :: m in Members(reg, t) ==> Plain(reg, m.typ, seen + {t}))
  }

  /** A number, an enum, or a handle that means the same to the host. */
  ghost predicate Scalar(reg: Registry, t: string)
  {
    || CategoryOf(reg, t) in {Some(Enum), Some(Bitmask)}
    || (CategoryOf(reg, t) == Some(Handle) && t !in reg.dispatchable)
    || (CategoryOf(reg, t) == Some(BaseType) && t in reg.intBases)
    || (CategoryOf(reg, t) == None && t in reg.basic)
  }

  /** Made of scalars alone, held in place and in arrays of constant length, in at most `depth` levels of structure. */
  ghost predicate MadeOfScalars(reg: Registry, t: string, depth: nat)
    decreases depth
  {
    || Scalar(reg, t)
    || (depth > 0 && CategoryOf(reg, t) in {Some(Struct), Some(Union)} && Members(reg, t) != [] &&
        forall m :: m in Members(reg, t) ==>
                      && !m.starred && (m.sized ==> m.fixed.Some?)
                      && MadeOfScalars(reg, Resolve(reg, m.typ), depth - 1))
  }

  lemma {:induction false} MadeDeeper(reg: Registry, t: string, depth: nat, more: nat)
    requires MadeOfScalars(reg, t, depth) && depth <= more
    ensures MadeOfScalars(reg, t, more)
    decreases depth
  {
    if !Scalar(reg, t) {
      forall m | m in Members(reg, t)
        ensures MadeOfScalars(reg, Resolve(reg, m.typ), more - 1)
      {
        MadeDeeper(reg, Resolve(reg, m.typ), depth - 1, more - 1);
      }
    }
  }

  lemma {:induction false} PlainIsMade(reg: Registry, name: string, seen: set<string>)
    requires Plain(reg, name, seen)
    ensures MadeOfScalars(reg, Resolve(reg, name), |reg.types.Keys - seen|)
    decreases reg.types.Keys - seen
  {
    var t := Resolve(reg, name);
    if !Scalar(reg, t) {
      SubsetSize(reg.types.Keys - (seen + {t}), reg.types.Keys - seen - {t});
      assert reg.types.Keys - (seen + {t}) == reg.types.Keys - seen - {t};
      forall m | m in Members(reg, t)
        ensures MadeOfScalars(reg, Resolve(reg, m.typ), |reg.types.Keys - seen| - 1)
      {
        PlainIsMade(reg, m.typ, seen + {t});
      }
    }
  }

  /** With the fewest levels that will do, no type on the way down is met again. */
  lemma {:induction false} MadeIsPlain(reg: Registry, name: string, seen: set<string>, depth: nat)
    requires MadeOfScalars(reg, Resolve(reg, name), depth) && forall s :: s in seen ==> !MadeOfScalars(reg, s, depth)
    ensures Plain(reg, name, seen)
    decreases depth
  {
    var t := Resolve(reg, name);
    if !Scalar(reg, t) {
      if MadeOfScalars(reg, t, depth - 1) {
        forall s | s in seen
          ensures !MadeOfScalars(reg, s, depth - 1)
        {
          if MadeOfScalars(reg, s, depth - 1) {
            MadeDeeper(reg, s, depth - 1, depth);
          }
        }
        MadeIsPlain(reg, name, seen, depth - 1);
      } else {
        forall m | m in Members(reg, t)
          ensures Plain(reg, m.typ, seen + {t})
        {
          forall s | s in seen + {t}
            ensures !MadeOfScalars(reg, s, depth - 1)
          {
            if MadeOfScalars(reg, s, depth - 1) {
              MadeDeeper(reg, s, depth - 1, depth);
            }
          }
          MadeIsPlain(reg, m.typ, seen + {t}, depth - 1);
        }
      }
    }
  }

  /** A type is plain exactly when it is made of scalars, to some depth: no pointer, no cycle, nothing unknown. */
  lemma PlainExactly(reg: Registry, name: string)
    ensures Plain(reg, name, {}) <==> exists depth: nat :: MadeOfScalars(reg, Resolve(reg, name), depth)
  {
    hide Plain, MadeOfScalars, Resolve;
    if Plain(reg, name, {}) {
      PlainIsMade(reg, name, {});
      var depth: nat := |reg.types.Keys - {}|;
      assert MadeOfScalars(reg, Resolve(reg, name), depth);
    }
    if depth: nat :| MadeOfScalars(reg, Resolve(reg, name), depth) {
      MadeIsPlain(reg, name, {}, depth);
    }
  }

  /** How the compiler lays types out: each one's size, and each member's offset. */
  datatype Layout = Layout(size: string -> nat, offset: (string, nat) -> nat)

  /** The size of a member that is in place. */
  function MemberSize(l: Layout, m: Member): nat
  {
    m.Elements() * l.size(m.typ)
  }

  /** An alias has its type's size, and members lie within their structure. */
  ghost predicate Fits(reg: Registry, l: Layout)
  {
    && (forall name :: l.size(name) == l.size(Resolve(reg, name)))
    && (forall t, i :: t in reg.types && 0 <= i < |reg.types[t].members| && !reg.types[t].members[i].starred ==>
          l.offset(t, i) + MemberSize(l, reg.types[t].members[i]) <= l.size(t))
  }

  /** A value with everything it leads to, to a given depth. */
  datatype Tree =
    | Deeper | Leaf(bytes: seq<byte>) | Host(handle: seq<byte>) | Code(bytes: seq<byte>) | Fields(parts: seq<seq<Tree>>)

  function WordIn(mem: Memory, at: nat): nat
  {
    FromLe(Peek(mem, at, 8))
  }

  function Deep(reg: Registry, l: Layout, name: string, at: nat, mem: Memory, depth: nat): Tree
    decreases depth, 2
  {
    if depth == 0 then Deeper
    else
      var t := Resolve(reg, name);
      match CategoryOf(reg, t)
      case Some(Handle) =>
        if t in reg.dispatchable then Host(Peek(mem, WordIn(mem, at) + 8, 8)) else Leaf(Peek(mem, at, l.size(name)))
      case Some(OtherCategory) => Code(Peek(mem, WordIn(mem, at), 8))
      case Some(Struct) => Fields(DeepMembers(reg, l, t, at, mem, depth - 1))
      case Some(Union) => Fields(DeepMembers(reg, l, t, at, mem, depth - 1))
      case _ => Leaf(Peek(mem, at, l.size(name)))
  }

  function DeepMembers(reg: Registry, l: Layout, t: string, at: nat, mem: Memory, depth: nat): (r: seq<seq<Tree>>)
    ensures |r| == |Members(reg, t)|
    decreases depth, 4
  {
    seq(|Members(reg, t)|, i requires 0 <= i < |Members(reg, t)| =>
      DeepMember(reg, l, Members(reg, t)[i], at + l.offset(t, i), mem, depth))
  }

  /** A member's elements: in place, or each pointer's target. */
  function DeepMember(reg: Registry, l: Layout, m: Member, at: nat, mem: Memory, depth: nat): (r: seq<Tree>)
    ensures |r| == m.Elements()
    decreases depth, 3
  {
    if m.starred then seq(m.Elements(), k requires 0 <= k => Deep(reg, l, m.typ, WordIn(mem, at + 8 * k), mem, depth))
    else seq(m.Elements(), k requires 0 <= k => Deep(reg, l, m.typ, at + k * l.size(m.typ), mem, depth))
  }

  /**
   * What a value leads to: a scalar is its bytes; a structure has its members' elements, as many as a
   * constant length says or one, each in place at its own size, or wherever the eight bytes of its pointer
   * say; a dispatchable handle is the eight bytes after the first eight its pointer leads to, and a
   * function pointer the first eight it leads to.
   */
  lemma DeepLeadsTo(reg: Registry, l: Layout, t: string, at: nat, mem: Memory, depth: nat, p: nat)
    requires depth > 0 && !Aliased(reg, t) && p < 0x1_0000_0000_0000_0000
    ensures Scalar(reg, t) ==> Deep(reg, l, t, at, mem, depth) == Leaf(Peek(mem, at, l.size(t)))
    ensures CategoryOf(reg, t) == Some(Handle) && t in reg.dispatchable && Peek(mem, at, 8) == Le(p, 8) ==>
              Deep(reg, l, t, at, mem, depth) == Host(Peek(mem, p + 8, 8))
    ensures CategoryOf(reg, t) == Some(OtherCategory) && Peek(mem, at, 8) == Le(p, 8) ==>
              Deep(reg, l, t, at, mem, depth) == Code(Peek(mem, p, 8))
    ensures CategoryOf(reg, t) in {Some(Struct), Some(Union)} ==>
              var d := Deep(reg, l, t, at, mem, depth);
              && d.Fields? && |d.parts| == |Members(reg, t)|
              && forall i :: 0 <= i < |d.parts| ==>
                   PartLeads(reg, l, Members(reg, t)[i], at + l.offset(t, i), mem, depth - 1, d.parts[i], p)
  {
    hide DeepMember, PartLeads;
    assert Resolve(reg, t) == t;
    WordRead(mem, at, p);
    if CategoryOf(reg, t) in {Some(Struct), Some(Union)} {
      forall i | 0 <= i < |Members(reg, t)|
        ensures PartLeads(reg, l, Members(reg, t)[i], at + l.offset(t, i), mem, depth - 1,
                          DeepMembers(reg, l, t, at, mem, depth - 1)[i], p)
      {
        MemberLeads(reg, l, Members(reg, t)[i], at + l.offset(t, i), mem, depth - 1, p);
      }
    }
  }

  /** A member's elements, those in place and those whose pointer is `p`. */
  ghost predicate PartLeads(reg: Registry, l: Layout, m: Member, at: nat, mem: Memory, depth: nat, part: seq<Tree>,
                            p: nat)
  {
    && |part| == (match m.fixed case Some(n) => n case None => 1)
    && forall k :: 0 <= k < |part| ==>
         if !m.starred then part[k] == Deep(reg, l, m.typ, at + k * l.size(m.typ), mem, depth)
         else Peek(mem, at + k * 8, 8) == Le(p, 8) ==> part[k] == Deep(reg, l, m.typ, p, mem, depth)
  }

  lemma MemberLeads(reg: Registry, l: Layout, m: Member, at: nat, mem: Memory, depth: nat, p: nat)
    requires p < 0x1_0000_0000_0000_0000
    ensures PartLeads(reg, l, m, at, mem, depth, DeepMember(reg, l, m, at, mem, depth), p)
  {
    hide Deep, WordIn;
    var part := DeepMember(reg, l, m, at, mem, depth);
    if m.starred {
      forall k | 0 <= k < |part| && Peek(mem, at + k * 8, 8) == Le(p, 8)
        ensures part[k] == Deep(reg, l, m.typ, p, mem, depth)
      {
        WordRead(mem, at + k * 8, p);
      }
    }
  }

  lemma WordRead(mem: Memory, at: nat, p: nat)
    requires p < 0x1_0000_0000_0000_0000
    ensures Peek(mem, at, 8) == Le(p, 8) ==> WordIn(mem, at) == p
  {
    Powers();
    LeRoundTrip(p, 8);
  }

  /** The same bytes, each in its own memory. */
  ghost predicate SameBytes(ma: Memory, a: nat, mb: Memory, b: nat, n: nat)
  {
    Peek(ma, a, n) == Peek(mb, b, n)
  }

  lemma SameInside(ma: Memory, a: nat, mb: Memory, b: nat, n: nat, o: nat, k: nat)
    requires SameBytes(ma, a, mb, b, n) && o + k <= n
    ensures SameBytes(ma, a + o, mb, b + o, k)
  {
    var x, y := Peek(ma, a, n), Peek(mb, b, n);
    assert Peek(ma, a + o, k) == x[o..o + k];
    assert Peek(mb, b + o, k) == y[o..o + k];
  }

  lemma ElementInside(k: nat, n: nat, size: nat)
    requires k < n
    ensures k * size + size <= n * size
  {
    assert (k + 1) * size <= n * size by {
      assert n * size - (k + 1) * size == (n - (k + 1)) * size;
    }
  }

  /** An array of plain elements, element by element. */
  lemma {:induction false} ElementsCopied(reg: Registry, l: Layout, name: string, seen: set<string>, n: nat, k: nat,
                                          ma: Memory, a: nat, mb: Memory, b: nat, depth: nat)
    requires Fits(reg, l) && Plain(reg, name, seen) && k < n
    requires SameBytes(ma, a, mb, b, n * l.size(name))
    ensures Deep(reg, l, name, a + k * l.size(name), ma, depth) == Deep(reg, l, name, b + k * l.size(name), mb, depth)
    decreases depth, 3
  {
    hide Deep, Fits, Plain;
    ElementInside(k, n, l.size(name));
    SameInside(ma, a, mb, b, n * l.size(name), k * l.size(name), l.size(name));
    PlainIsItsBytes(reg, l, name, seen, ma, a + k * l.size(name), mb, b + k * l.size(name), depth);
  }

  lemma {:induction false} MemberCopied(reg: Registry, l: Layout, m: Member, seen: set<string>,
                                        ma: Memory, a: nat, mb: Memory, b: nat, depth: nat)
    requires Fits(reg, l) && Plain(reg, m.typ, seen) && !m.starred
    requires SameBytes(ma, a, mb, b, MemberSize(l, m))
    ensures DeepMember(reg, l, m, a, ma, depth) == DeepMember(reg, l, m, b, mb, depth)
    decreases depth, 4
  {
    hide Deep, Fits, Plain;
    var x, y := DeepMember(reg, l, m, a, ma, depth), DeepMember(reg, l, m, b, mb, depth);
    forall k | 0 <= k < m.Elements()
      ensures x[k] == y[k]
    {
      ElementsCopied(reg, l, m.typ, seen, m.Elements(), k, ma, a, mb, b, depth);
    }
  }

  lemma {:induction false} MembersCopied(reg: Registry, l: Layout, t: string, seen: set<string>,
                                         ma: Memory, a: nat, mb: Memory, b: nat, depth: nat)
    requires Fits(reg, l) && SameBytes(ma, a, mb, b, l.size(t))
    requires forall m :: m in Members(reg, t) ==> !m.starred && Plain(reg, m.typ, seen)
    ensures DeepMembers(reg, l, t, a, ma, depth) == DeepMembers(reg, l, t, b, mb, depth)
    decreases depth, 5
  {
    hide Deep, Plain, DeepMember;
    var x, y := DeepMembers(reg, l, t, a, ma, depth), DeepMembers(reg, l, t, b, mb, depth);
    forall i | 0 <= i < |Members(reg, t)|
      ensures x[i] == y[i]
    {
      var m := Members(reg, t)[i];
      assert !m.starred && l.offset(t, i) + MemberSize(l, m) <= l.size(t);
      SameInside(ma, a, mb, b, l.size(t), l.offset(t, i), MemberSize(l, m));
      MemberCopied(reg, l, m, seen, ma, a + l.offset(t, i), mb, b + l.offset(t, i), depth);
    }
  }

  /** A copy of a plain value's bytes, anywhere and whatever else memory then holds, is the value to any depth. */
  lemma {:induction false} PlainIsItsBytes(reg: Registry, l: Layout, name: string, seen: set<string>,
                                           ma: Memory, a: nat, mb: Memory, b: nat, depth: nat)
    requires Fits(reg, l) && Plain(reg, name, seen)
    requires SameBytes(ma, a, mb, b, l.size(name))
    ensures Deep(reg, l, name, a, ma, depth) == Deep(reg, l, name, b, mb, depth)
    decreases depth, 2
  {
    var t := Resolve(reg, name);
    assert l.size(name) == l.size(t);
    if depth > 0 && Aggregate(reg, t) {
      MembersCopied(reg, l, t, seen + {t}, ma, a, mb, b, depth - 1);
    }
  }

  // ---------------------------------------------------------------- types reachable through members

  datatype Step = Step(member: string, to: string)

  /** The types one structure's members lead to: pNext is not followed, nor anything in an exempt structure. */
  function Successors(reg: Registry, t: string): set<string>
  {
    if Aggregate(reg, t) && t !in reg.exempt
    then set m | m in Members(reg, t) && m.name != "pNext" :: Resolve(reg, m.typ)
    else {}
  }

  ghost predicate Closed(reg: Registry, s: set<string>)
  {
    forall t :: t in s ==> Successors(reg, t) <= s
  }

  /** The smallest set that holds the roots and is closed under members. */
  ghost predicate LeastReach(reg: Registry, roots: set<string>, s: set<string>)
  {
    roots <= s && Closed(reg, s) && forall c :: roots <= c && Closed(reg, c) ==> s <= c
  }

  /** A path of members that leads from a root to `t`. */
  ghost predicate Leads(reg: Registry, roots: set<string>, path: (string, seq<Step>), t: string)
    decreases |path.1|
  {
    if path.1 == [] then path.0 == t && t in roots
    else
      var last, before := path.1[|path.1| - 1], path.1[..|path.1| - 1];
      var from := if before == [] then path.0 else before[|before| - 1].to;
      && last.to == t && Leads(reg, roots, (path.0, before), from)
      && t in Successors(reg, from)
      && exists m :: m in Members(reg, from) && m.name == last.member != "pNext" && Resolve(reg, m.typ) == t
  }

  lemma {:induction false} LeadsInto(reg: Registry, roots: set<string>, path: (string, seq<Step>), t: string,
                                     c: set<string>)
    requires Leads(reg, roots, path, t) && roots <= c && Closed(reg, c)
    ensures t in c
    decreases |path.1|
  {
    if path.1 != [] {
      var before := path.1[..|path.1| - 1];
      var from := if before == [] then path.0 else before[|before| - 1].to;
      LeadsInto(reg, roots, (path.0, before), from, c);
    }
  }

  lemma LeadsOn(reg: Registry, roots: set<string>, path: (string, seq<Step>), t: string, m: Member)
    requires Leads(reg, roots, path, t) && Aggregate(reg, t) && t !in reg.exempt
    requires m in Members(reg, t) && m.name != "pNext"
    ensures Resolve(reg, m.typ) in Successors(reg, t)
    ensures Leads(reg, roots, (path.0, path.1 + [Step(m.name, Resolve(reg, m.typ))]), Resolve(reg, m.typ))
  {
    var step := Step(m.name, Resolve(reg, m.typ));
    var on := path.1 + [step];
    assert on[..|on| - 1] == path.1;
  }

  /** A type to look at, and how it was come by. */
  type Todo = seq<(string, (string, seq<Step>))>

  ghost predicate AllLead(reg: Registry, roots: set<string>, paths: map<string, (string, seq<Step>)>, todo: Todo)
  {
    && (forall t :: t in paths ==> Leads(reg, roots, paths[t], t))
    && (forall i :: 0 <= i < |todo| ==> Leads(reg, roots, todo[i].1, todo[i].0))
  }

  ghost predicate Pending(todo: Todo, t: string)
  {
    exists i :: 0 <= i < |todo| && todo[i].0 == t
  }

  /** Every root, and every successor of a type already in, is in or still to come. */
  ghost predicate Covered(reg: Registry, roots: set<string>, paths: map<string, (string, seq<Step>)>, todo: Todo)
  {
    && (forall t :: t in roots ==> t in paths || Pending(todo, t))
    && (forall t, u :: t in paths && u in Successors(reg, t) ==> u in paths || Pending(todo, u))
  }

  ghost function Universe(reg: Registry, roots: set<string>): set<string>
  {
    roots + set t, m | t in reg.types && m in reg.types[t].members :: Resolve(reg, m.typ)
  }

  lemma {:induction false} LeadsWithin(reg: Registry, roots: set<string>, path: (string, seq<Step>), t: string)
    requires Leads(reg, roots, path, t)
    ensures t in Universe(reg, roots)
  {
  }

  lemma PendingGrows(was: Todo, more: Todo, t: string)
    requires was <= more && Pending(was, t)
    ensures Pending(more, t)
  {
    var k :| 0 <= k < |was| && was[k].0 == t;
    assert more[k].0 == t;
  }

  method PushOne(reg: Registry, ghost roots: set<string>, paths: map<string, (string, seq<Step>)>, todo: Todo,
                 t: string,
                 path: (string, seq<Step>), m: Member)
    returns (more: Todo)
    requires AllLead(reg, roots, paths, todo) && Leads(reg, roots, path, t) && Aggregate(reg, t) && t !in reg.exempt
    requires m in Members(reg, t) && m.name != "pNext"
    ensures todo <= more && AllLead(reg, roots, paths, more)
    ensures Resolve(reg, m.typ) in paths || Pending(more, Resolve(reg, m.typ))
  {
    hide Leads, Resolve, EndsAt, Members, Aggregate;
    more := todo;
    var u := ResolveAlias(reg, m.typ);
    if u !in paths {
      LeadsOn(reg, roots, path, t, m);
      more := more + [(u, (path.0, path.1 + [Step(m.name, u)]))];
      assert more[|todo|].0 == u;
    }
  }

  /** One type's members: each not yet in is put on the list. */
  method Push(reg: Registry, ghost roots: set<string>, paths: map<string, (string, seq<Step>)>, todo: Todo,
              t: string, path: (string, seq<Step>))
    returns (more: Todo)
    requires AllLead(reg, roots, paths, todo) && Leads(reg, roots, path, t) && Aggregate(reg, t) && t !in reg.exempt
    ensures todo <= more && AllLead(reg, roots, paths, more)
    ensures forall u :: u in Successors(reg, t) ==> u in paths || Pending(more, u)
  {
    hide AllLead, Leads, Resolve, Pending;
    more := todo;
    var ms := Members(reg, t);
    for i := 0 to |ms|
      invariant todo <= more && AllLead(reg, roots, paths, more)
      invariant forall j :: 0 <= j < i && ms[j].name != "pNext" ==>
                  Resolve(reg, ms[j].typ) in paths || Pending(more, Resolve(reg, ms[j].typ))
    {
      if ms[i].name != "pNext" {
        ghost var was := more;
        more := PushOne(reg, roots, paths, more, t, path, ms[i]);
        forall v | Pending(was, v)
          ensures Pending(more, v)
        {
          PendingGrows(was, more, v);
        }
      }
    }
  }

  method Roots(reg: Registry, roots: seq<string>) returns (todo: Todo)
    ensures var start := set r | r in roots :: Resolve(reg, r);
            AllLead(reg, start, map[], todo) && Covered(reg, start, map[], todo)
  {
    todo := [];
    for i := 0 to |roots|
      invariant |todo| == i && forall j :: 0 <= j < i ==>
                  todo[j].0 == Resolve(reg, roots[j]) && todo[j].1 == (todo[j].0, [])
    {
      var r := ResolveAlias(reg, roots[i]);
      todo := todo + [(r, (r, []))];
    }
    Starts(reg, roots, todo);
  }

  /** One turn of the search: the type last put on the list is looked at. */
  method Turn(reg: Registry, ghost start: set<string>, paths: map<string, (string, seq<Step>)>, todo: Todo)
    returns (paths': map<string, (string, seq<Step>)>, todo': Todo)
    requires todo != [] && AllLead(reg, start, paths, todo) && Covered(reg, start, paths, todo)
    ensures AllLead(reg, start, paths', todo') && Covered(reg, start, paths', todo')
    ensures Universe(reg, start) - paths'.Keys < Universe(reg, start) - paths.Keys
            || (paths' == paths && |todo'| < |todo|)
  {
    hide Covered, Universe;
    var (t, path) := todo[|todo| - 1];
    paths', todo' := paths, todo[..|todo| - 1];
    LeadsWithin(reg, start, path, t);
    if t !in paths {
      paths' := paths[t := path];
      if Aggregate(reg, t) && t !in reg.exempt {
        todo' := Push(reg, start, paths', todo', t, path);
      }
      Taken(reg, start, paths, todo, paths', todo', t, path);
      LessLeft(Universe(reg, start), paths, paths', t);
    } else {
      Skipped(reg, start, paths, todo, todo', t);
    }
  }

  lemma LessLeft<V>(universe: set<string>, paths: map<string, V>, more: map<string, V>, t: string)
    requires t in universe && t !in paths && more.Keys == paths.Keys + {t}
    ensures universe - more.Keys < universe - paths.Keys
  {
    assert t in universe - paths.Keys;
  }

  /** Every type reached from the roots, each with the members that lead to it. */
  method Reach(reg: Registry, roots: seq<string>) returns (paths: map<string, (string, seq<Step>)>)
    ensures LeastReach(reg, set r | r in roots :: Resolve(reg, r), paths.Keys)
    ensures forall t :: t in paths ==> Leads(reg, set r | r in roots :: Resolve(reg, r), paths[t], t)
  {
    hide AllLead, Covered, LeastReach, Leads, Resolve;
    ghost var start := set r | r in roots :: Resolve(reg, r);
    var todo := Roots(reg, roots);
    paths := map[];
    while todo != []
      invariant AllLead(reg, start, paths, todo) && Covered(reg, start, paths, todo)
      decreases Universe(reg, start) - paths.Keys, |todo|
    {
      paths, todo := Turn(reg, start, paths, todo);
    }
    ReachedLeast(reg, start, paths);
    AllLeadOut(reg, start, paths);
  }

  lemma AllLeadOut(reg: Registry, roots: set<string>, paths: map<string, (string, seq<Step>)>)
    requires AllLead(reg, roots, paths, [])
    ensures forall t :: t in paths ==> Leads(reg, roots, paths[t], t)
  {
  }

  lemma Starts(reg: Registry, roots: seq<string>, todo: Todo)
    requires |todo| == |roots|
    requires forall j :: 0 <= j < |todo| ==> todo[j].0 == Resolve(reg, roots[j]) && todo[j].1 == (todo[j].0, [])
    ensures var start := set r | r in roots :: Resolve(reg, r);
            AllLead(reg, start, map[], todo) && Covered(reg, start, map[], todo)
  {
    hide Resolve;
    var start := set r | r in roots :: Resolve(reg, r);
    forall t | t in start
      ensures Pending(todo, t)
    {
      var r :| r in roots && Resolve(reg, r) == t;
      var j :| 0 <= j < |roots| && roots[j] == r;
      assert todo[j].0 == t;
    }
    forall j | 0 <= j < |todo|
      ensures Leads(reg, start, todo[j].1, todo[j].0)
    {
      assert roots[j] in roots;
    }
  }

  lemma StillPending(was: Todo, todo: Todo, t: string, u: string)
    requires was != [] && was[..|was| - 1] <= todo && was[|was| - 1].0 == t && Pending(was, u) && u != t
    ensures Pending(todo, u)
  {
    var i :| 0 <= i < |was| && was[i].0 == u;
    assert todo[i] == was[..|was| - 1][i];
  }

  lemma Taken(reg: Registry, roots: set<string>, before: map<string, (string, seq<Step>)>, was: Todo,
              paths: map<string, (string, seq<Step>)>, todo: Todo, t: string, path: (string, seq<Step>))
    requires Covered(reg, roots, before, was) && was != [] && was[..|was| - 1] <= todo && was[|was| - 1].0 == t
    requires paths == before[t := path]
    requires forall u :: u in Successors(reg, t) ==> u in paths || Pending(todo, u)
    ensures Covered(reg, roots, paths, todo)
  {
    hide Successors;
    forall u | u !in paths && Pending(was, u)
      ensures Pending(todo, u)
    {
      StillPending(was, todo, t, u);
    }
  }

  lemma Skipped(reg: Registry, roots: set<string>, paths: map<string, (string, seq<Step>)>, was: Todo, todo: Todo,
                t: string)
    requires Covered(reg, roots, paths, was) && was != [] && todo == was[..|was| - 1] && was[|was| - 1].0 == t
             && t in paths
    ensures Covered(reg, roots, paths, todo)
  {
    hide Successors;
    forall u | u !in paths && Pending(was, u)
      ensures Pending(todo, u)
    {
      StillPending(was, todo, t, u);
    }
  }

  lemma ReachedLeast(reg: Registry, roots: set<string>, paths: map<string, (string, seq<Step>)>)
    requires AllLead(reg, roots, paths, []) && Covered(reg, roots, paths, [])
    ensures LeastReach(reg, roots, paths.Keys)
  {
    hide Successors, Leads;
    forall t | t in paths
      ensures Successors(reg, t) <= paths.Keys
    {
      forall u | u in Successors(reg, t)
        ensures u in paths
      {
        assert !Pending([], u);
      }
    }
    forall c | roots <= c && Closed(reg, c)
      ensures paths.Keys <= c
    {
      forall t | t in paths
        ensures t in c
      {
        LeadsInto(reg, roots, paths[t], t, c);
      }
    }
  }
}
