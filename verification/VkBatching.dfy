/**
 * The whole way of a batched command: from its signature, through any run of the driver, to what the
 * host's driver reads.
 */
module VkBatching {
  import opened Wrappers
  import opened Bytes
  import opened VkTypes
  import opened VkPlan
  import opened VkRecord
  import opened VkReplay
  import opened VkDriver

  /**
   * What the generator is given: the registry, the compiler's layout, the forwarded commands, those
   * written by hand.
   */
  datatype Setup = Setup(reg: Registry, l: Layout, sigs: seq<Signature>, special: set<string>)

  /** Every command has a parameter, and ids and parameter counts fit their fields. */
  ghost predicate Sound(u: Setup)
  {
    && Fits(u.reg, u.l) && |u.sigs| < 0x1_0000_0000
    && forall id :: 0 <= id < |u.sigs| ==> 0 < |u.sigs[id].params| < 0x1_0000_0000
  }

  /** The table holds exactly the batched commands, each with a copy for every array it points at. */
  ghost predicate Built(u: Setup, table: Commands, n: nat)
    requires n <= |u.sigs|
  {
    && (forall id :: id in table ==> id < n && PlannedAs(u, id, table[id]))
    && (forall id :: 0 <= id < n && u.sigs[id].params != [] && IsBatched(u, id) ==> id in table)
  }

  ghost predicate IsBatched(u: Setup, id: nat)
    requires id < |u.sigs| && u.sigs[id].params != []
  {
    && "vkCmd" <= u.sigs[id].name && u.sigs[id].name !in u.special && u.sigs[id].returned == "void"
    && Resolve(u.reg, u.sigs[id].params[0].typ) == "VkCommandBuffer"
    && forall i :: 0 < i < |u.sigs[id].params| && PointsAt(u.sigs[id], i) ==>
                     CopyFor(u.reg, u.l, u.sigs[id], i).Some?
  }

  ghost predicate PlannedAs(u: Setup, id: nat, c: Command)
    requires id < |u.sigs|
  {
    && c.argc == |u.sigs[id].params| && u.sigs[id].params != [] && IsBatched(u, id)
    && CopiesUpTo(u.reg, u.l, u.sigs[id], c.plan, c.argc)
  }

  /** The table the guest and the host are both generated from. */
  method BuildTable(u: Setup) returns (table: Commands)
    requires Sound(u)
    ensures Built(u, table, |u.sigs|) && WellFormed(table)
  {
    hide CopiesUpTo, CopyFor, Resolve;
    table := map[];
    for id := 0 to |u.sigs|
      invariant Built(u, table, id) && WellFormed(table)
    {
      var plan := BatchPlan(u.reg, u.l, u.sigs[id], u.special);
      if plan.Some? {
        PlansAreWellPlanned(u.reg, u.l, u.sigs[id], plan.value);
        table := table[id := Command(|u.sigs[id].params|, plan.value)];
      }
    }
  }

  // ---------------------------------------------------------------- what an array means

  /** The k-th element at `b` is, to this depth, the one the caller's array held. */
  ghost predicate ElementKept(u: Setup, sig: Signature, i: nat, args: seq<nat>, mem: Memory, there: Memory, b: nat,
                              k: nat,
                              depth: nat)
    requires i < |sig.params| == |args|
  {
    var t := Resolve(u.reg, sig.params[i].typ);
    Deep(u.reg, u.l, t, b + k * u.l.size(t), there, depth) == Deep(u.reg, u.l, t, args[i] + k * u.l.size(t), mem, depth)
  }

  /** Wherever these bytes lie, each of the array's elements there is, to any depth, the one the caller's array held. */
  ghost predicate ArrayKept(u: Setup, sig: Signature, i: nat, args: seq<nat>, mem: Memory, bytes: seq<byte>)
    requires i < |sig.params| == |args|
  {
    forall there: Memory, b: nat, k: nat, depth: nat ::
      Peek(there, b, |bytes|) == bytes && k < Elements(sig, i, args) ==>
        ElementKept(u, sig, i, args, mem, there, b, k, depth)
  }

  /** An array of no type is its bytes. */
  ghost predicate Kept(u: Setup, sig: Signature, i: nat, args: seq<nat>, mem: Memory, bytes: seq<byte>)
    requires i < |sig.params| == |args|
  {
    if Resolve(u.reg, sig.params[i].typ) == "void" then bytes == Peek(mem, args[i], Elements(sig, i, args))
    else ArrayKept(u, sig, i, args, mem, bytes)
  }

  /** The call has the caller's arguments, and for each array it points at, the array as it was. */
  ghost predicate ArraysKept(u: Setup, sig: Signature, args: seq<nat>, mem: Memory, call: Call)
  {
    && |call.values| == |args| == |sig.params|
    && forall i :: 0 <= i < |args| ==>
         if 0 < i && PointsAt(sig, i) && args[i] != 0
         then call.values[i].Array? && Kept(u, sig, i, args, mem, call.values[i].bytes)
         else call.values[i] == Word(args[i])
  }

  lemma PlanFinds(u: Setup, id: nat, c: Command, i: nat)
    requires id < |u.sigs| && PlannedAs(u, id, c) && i < c.argc
    ensures var f := Find(c.plan, |c.plan|, i);
            && (f.Some? <==> 0 < i && PointsAt(u.sigs[id], i))
            && (f.Some? ==> CopyFor(u.reg, u.l, u.sigs[id], i) == Some(c.plan[f.value]))
  {
    hide CopyFor, IsBatched;
  }

  lemma BytesKept(u: Setup, sig: Signature, copy: Copy, args: seq<nat>, mem: Memory, i: nat)
    requires Fits(u.reg, u.l) && 0 < i < |args| == |sig.params| && CopyFor(u.reg, u.l, sig, i) == Some(copy)
    ensures Kept(u, sig, i, args, mem, Peek(mem, args[i], Extent(copy, args)))
  {
    hide CopyFor, Deep, Fits, Resolve, Plain, Extent, Elements;
    CopyExactly(u.reg, u.l, sig, i, args);
    var bytes := Peek(mem, args[i], Extent(copy, args));
    if Resolve(u.reg, sig.params[i].typ) != "void" {
      forall there: Memory, b: nat, k: nat, depth: nat
        | Peek(there, b, |bytes|) == bytes && k < Elements(sig, i, args)
        ensures ElementKept(u, sig, i, args, mem, there, b, k, depth)
      {
        CopiedElementMeans(u.reg, u.l, sig, i, args, k, there, b, mem, args[i], depth);
      }
    }
  }

  lemma MeaningKeeps(u: Setup, table: Commands, id: nat, args: seq<nat>, mem: Memory)
    requires Sound(u) && Built(u, table, |u.sigs|) && id in table && ArgsOf(args, table[id])
    ensures ArraysKept(u, u.sigs[id], args, mem, Meaning(id, args, table[id], mem))
  {
    hide CopyFor, Kept, Built, Fits, IsBatched, CopiesUpTo, Extent;
    BuiltPlans(u, table, id);
    var c, sig := table[id], u.sigs[id];
    forall i | 0 <= i < |args|
      ensures var v := Meaning(id, args, c, mem).values[i];
              if 0 < i && PointsAt(sig, i) && args[i] != 0 then v.Array? && Kept(u, sig, i, args, mem, v.bytes)
              else v == Word(args[i])
    {
      PlanFinds(u, id, c, i);
      var f := Find(c.plan, |c.plan|, i);
      if f.Some? && args[i] != 0 {
        ArgWithin(args, c, f.value);
        BytesKept(u, sig, c.plan[f.value], args, mem, i);
      }
    }
  }

  lemma BuiltPlans(u: Setup, table: Commands, id: nat)
    requires Built(u, table, |u.sigs|) && id in table
    ensures id < |u.sigs| && PlannedAs(u, id, table[id])
  {
  }

  // ---------------------------------------------------------------- over whole runs

  /** What one call of the program adds to a command buffer's list, with memory as it is at that call. */
  ghost predicate MadeNow(u: Setup, s: Recorded, e: Event, w: nat, call: Call)
  {
    match e
    case Unbatched(x, c) => x == w && c == call
    case Batchable(id, args, _) =>
      && id < |u.sigs| && args != [] && args[0] == w && call.id == id && ArraysKept(u, u.sigs[id], args, s.mem, call)
    case _ => false
  }

  /** Some call of the run made this one on command buffer `w`. */
  ghost predicate Made(u: Setup, s: Recorded, es: seq<Event>, table: Commands, w: nat, call: Call)
    requires s.lists.Keys == s.pools.Keys && AllAllowed(s, es, table)
    decreases |es|
  {
    && es != []
    && (MadeNow(u, s, es[0], w, call) || Made(u, Forwarded(s, es[0], table), es[1..], table, w, call))
  }

  lemma StepMakes(u: Setup, s: Recorded, e: Event, table: Commands, w: nat, call: Call)
    requires Sound(u) && Built(u, table, |u.sigs|) && s.lists.Keys == s.pools.Keys && Allowed(s, e, table)
    requires var n := Forwarded(s, e, table); w in n.lists && call in n.lists[w]
    ensures (w in s.lists && call in s.lists[w]) || MadeNow(u, s, e, w, call)
  {
    hide ArraysKept, Meaning, Built, Sound, WellPlanned, Usable;
    if e.Batchable? && !(w in s.lists && call in s.lists[w]) {
      BuiltPlans(u, table, e.id);
      assert call == Meaning(e.id, e.args, table[e.id], s.mem);
      MeaningKeeps(u, table, e.id, e.args, s.mem);
      HasFirst(e.args, table[e.id]);
      MeaningId(e.id, e.args, table[e.id], s.mem);
    }
  }

  lemma MeaningId(id: nat, args: seq<nat>, c: Command, mem: Memory)
    requires ArgsOf(args, c)
    ensures Meaning(id, args, c, mem).id == id
  {
  }

  lemma KeysStay(s: Recorded, e: Event, table: Commands)
    requires s.lists.Keys == s.pools.Keys && Allowed(s, e, table)
    ensures Forwarded(s, e, table).lists.Keys == Forwarded(s, e, table).pools.Keys
  {
    hide Meaning, ArgsOf, Usable;
  }

  lemma {:induction false} RunMakes(u: Setup, s: Recorded, es: seq<Event>, table: Commands, w: nat, call: Call)
    requires Sound(u) && Built(u, table, |u.sigs|) && s.lists.Keys == s.pools.Keys && AllAllowed(s, es, table)
    requires var n := ForwardedAll(s, es, table); w in n.lists && call in n.lists[w]
    ensures (w in s.lists && call in s.lists[w]) || Made(u, s, es, table, w, call)
    decreases |es|
  {
    hide MadeNow, Forwarded, Built, Sound, WellPlanned, Usable;
    if es != [] {
      var n := Forwarded(s, es[0], table);
      KeysStay(s, es[0], table);
      RunMakes(u, n, es[1..], table, w, call);
      if w in n.lists && call in n.lists[w] {
        StepMakes(u, s, es[0], table, w, call);
      }
    }
  }

  /**
   * A whole session, from the signatures on: after any calls, every command the host holds or is still to be
   * sent was made by one of the program's calls on that command buffer, and if by a batched one, its
   * arguments are the caller's and each array's elements are, to any depth, those the caller's array held
   * when it made the call.
   */
  method Session(u: Setup, mem: Memory, es: seq<Event>, table: Commands) returns (d: Driver)
    requires Sound(u) && Built(u, table, |u.sigs|) && WellFormed(table)
    requires AllAllowed(Recorded(map[], map[], mem), es, table)
    ensures fresh(d) && d.Valid() && d.table == table && d.bufs.Keys == d.host.Keys == d.unsent.Keys
    ensures forall w :: w in d.bufs ==> AllLegal(d.unsent[w], w, table)
    ensures forall w, call :: w in d.bufs && call in d.host[w] + Meant(d.unsent[w], table) ==>
              Made(u, Recorded(map[], map[], mem), es, table, w, call)
  {
    hide *;
    StartHasNone(mem);
    d := new Driver(table, mem);
    d.Run(es);
    AllMade(u, Recorded(map[], map[], mem), es, table);
  }

  lemma StartHasNone(mem: Memory)
    ensures var s := Recorded(map[], map[], mem); s.lists.Keys == s.pools.Keys
  {
  }

  lemma AllMade(u: Setup, s: Recorded, es: seq<Event>, table: Commands)
    requires Sound(u) && Built(u, table, |u.sigs|) && s.lists.Keys == s.pools.Keys && s.lists == map[]
    requires AllAllowed(s, es, table)
    ensures var n := ForwardedAll(s, es, table);
            forall w, call :: w in n.lists && call in n.lists[w] ==> Made(u, s, es, table, w, call)
  {
    hide Sound, Built, Made, AllAllowed, ForwardedAll;
    var n := ForwardedAll(s, es, table);
    forall w, call | w in n.lists && call in n.lists[w]
      ensures Made(u, s, es, table, w, call)
    {
      RunMakes(u, s, es, table, w, call);
    }
  }

  // ---------------------------------------------------------------- where the host's driver looks

  /** What the host's driver reads at an address it is given, `n` bytes of which it is sent. */
  ghost predicate Reads(u: Setup, sig: Signature, i: nat, args: seq<nat>, mem: Memory, view: Memory, b: nat)
    requires i < |sig.params| == |args|
  {
    if Resolve(u.reg, sig.params[i].typ) == "void" then
      Peek(view, b, Elements(sig, i, args)) == Peek(mem, args[i], Elements(sig, i, args))
    else
      forall k: nat, depth: nat :: k < Elements(sig, i, args) ==> ElementKept(u, sig, i, args, mem, view, b, k, depth)
  }

  /**
   * However late a record is replayed, and whatever the caller has done to its memory since, each array
   * argument the host's driver is given points at the elements the caller's array held, to any depth, or
   * at its bytes where it is of no type.
   */
  lemma HostReadsElements(u: Setup, table: Commands, data: seq<byte>, at: nat, off: nat, e: Entry, now: Memory, i: nat)
    requires Sound(u) && Built(u, table, |u.sigs|) && e.id in table && ArgsOf(e.args, table[e.id])
    requires 0 < at && at + |data| < 0x1_0000_0000_0000_0000
             && IsRecord(data, at, off, e.id, e.args, table[e.id], e.mem)
    requires e.id < |u.sigs| && 0 < i < |u.sigs[e.id].params| == |e.args| && PointsAt(u.sigs[e.id], i)
    requires e.args[i] != 0
    ensures off + 16 + 8 * |e.args| <= |data|
    ensures Reads(u, u.sigs[e.id], i, e.args, e.mem, HostView(now, at, data), ReadWords(data, off + 16, |e.args|)[i])
  {
    hide IsRecord, ReadWords, HostView, Meaning, Built, ElementKept, Resolve, Elements, Extent, Sound, PointsAt;
    var c, sig := table[e.id], u.sigs[e.id];
    RecordMeans(data, at, off, e.id, e.args, c, e.mem, now);
    MeaningKeeps(u, table, e.id, e.args, e.mem);
    var words, view := ReadWords(data, off + 16, |e.args|), HostView(now, at, data);
    var call := Meaning(e.id, e.args, c, e.mem);
    GivenArray(u, table, e.id, words, view, call, i);
    assert Kept(u, sig, i, e.args, e.mem, call.values[i].bytes);
  }

  /** An array value is the bytes at the address given. */
  lemma GivenArray(u: Setup, table: Commands, id: nat, words: seq<nat>, view: Memory, call: Call, i: nat)
    requires id in table && ArgsOf(words, table[id]) && Meaning(id, words, table[id], view) == call
    requires i < |words| && call.values[i].Array?
    ensures Peek(view, words[i], |call.values[i].bytes|) == call.values[i].bytes
  {
    hide Extent;
  }
}
