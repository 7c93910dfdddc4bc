/** One batched Vulkan command in a batch's bytes: how the guest writes it and how the host reads it back. */
module VkRecord {
  import opened Wrappers
  import opened Bytes

  const BATCH_BYTES: nat := 64 * 1024
  const RECORD_MAX: nat := BATCH_BYTES / 4
  const MAX_ARGS: nat := 32

  /** The guest's and host's one address space, as the bytes at each address. */
  type Memory = nat -> byte

  function Peek(mem: Memory, at: nat, n: nat): (s: seq<byte>)
    ensures |s| == n && forall i :: 0 <= i < n ==> s[i] == mem(at + i)
  {
    seq(n, i requires 0 <= i => mem(at + i))
  }

  /** How many elements an array argument has: a constant, or the value of an integer argument. */
  datatype Count = Fixed(n: nat) | Param(j: nat)

  /** The argument that points at an array, with its count and element size. */
  datatype Copy = Copy(arg: nat, count: Count, size: nat)

  /** A batchable command: its argument count and the arrays it points at. */
  datatype Command = Command(argc: nat, plan: seq<Copy>)

  type Commands = map<nat, Command>

  predicate WellPlanned(c: Command)
  {
    && 0 < c.argc < TWO32
    && (forall i :: 0 <= i < |c.plan| ==> 0 < c.plan[i].arg < c.argc)
    && (forall i, j :: 0 <= i < j < |c.plan| ==> c.plan[i].arg != c.plan[j].arg)
    && (forall i, j :: 0 <= i < |c.plan| && 0 <= j < |c.plan| && c.plan[i].count.Param? ==>
          c.plan[i].count.j < c.argc && c.plan[i].count.j != c.plan[j].arg)
  }

  ghost predicate WellFormed(table: Commands)
  {
    forall id :: id in table ==> id < TWO32 && WellPlanned(table[id])
  }

  predicate ArgsOf(args: seq<nat>, c: Command)
  {
    WellPlanned(c) && |args| == c.argc && forall k :: 0 <= k < |args| ==> args[k] < TWO64
  }

  lemma ArgWithin(args: seq<nat>, c: Command, i: nat)
    requires ArgsOf(args, c) && i < |c.plan|
    ensures 0 < c.plan[i].arg < |args| && (c.plan[i].count.Param? ==> c.plan[i].count.j < |args|)
  {
  }

  function Extent(c: Copy, args: seq<nat>): nat
    requires c.count.Param? ==> c.count.j < |args|
  {
    match c.count
    case Fixed(n) => n * c.size
    case Param(j) => args[j] * c.size
  }

  // ---------------------------------------------------------------- what a command means to the host's driver

  datatype Value = Word(w: nat) | Array(bytes: seq<byte>)

  datatype Call = Call(id: nat, values: seq<Value>)

  /** Which of the first `i` copies is argument `k`'s. */
  function Find(plan: seq<Copy>, i: nat, k: nat): (r: Option<nat>)
    requires i <= |plan|
    ensures r.Some? ==> r.value < i && plan[r.value].arg == k
    ensures r.None? ==> forall j :: 0 <= j < i ==> plan[j].arg != k
  {
    if i == 0 then None else if plan[i - 1].arg == k then Some(i - 1) else Find(plan, i - 1, k)
  }

  /** An argument's value: itself, or the array it points at where the command reads one there. */
  function ValueOf(args: seq<nat>, c: Command, mem: Memory, k: nat): Value
    requires ArgsOf(args, c) && k < |args|
  {
    match Find(c.plan, |c.plan|, k)
    case Some(j) => if args[k] == 0 then Word(0) else Array(Peek(mem, args[k], Extent(c.plan[j], args)))
    case None => Word(args[k])
  }

  function Meaning(id: nat, args: seq<nat>, c: Command, mem: Memory): Call
    requires ArgsOf(args, c)
  {
    Call(id, seq(|args|, k requires 0 <= k < |args| => ValueOf(args, c, mem, k)))
  }

  // ---------------------------------------------------------------- the record's layout

  function Round8(n: nat): (r: nat)
    ensures n <= r < n + 8 && r % 8 == 0
  {
    (n + 7) / 8 * 8
  }

  /** The bytes the first `i` copies take: none for a null pointer. */
  function Copied(args: seq<nat>, c: Command, i: nat): (r: nat)
    requires ArgsOf(args, c) && i <= |c.plan|
    ensures r % 8 == 0
  {
    if i == 0 then 0
    else Copied(args, c, i - 1) + if args[c.plan[i - 1].arg] == 0 then 0 else Round8(Extent(c.plan[i - 1], args))
  }

  lemma {:induction false} CopiedGrows(args: seq<nat>, c: Command, i: nat, j: nat)
    requires ArgsOf(args, c) && i <= j <= |c.plan|
    ensures Copied(args, c, i) <= Copied(args, c, j)
  {
    if i < j {
      CopiedGrows(args, c, i, j - 1);
    }
  }

  function Need(args: seq<nat>, c: Command): nat
    requires ArgsOf(args, c)
  {
    16 + 8 * |args| + Copied(args, c, |c.plan|)
  }

  /** Where the i-th copy lies in a record that starts at `off`. */
  function Offset(off: nat, args: seq<nat>, c: Command, i: nat): nat
    requires ArgsOf(args, c) && i <= |c.plan|
  {
    off + 16 + 8 * |args| + Copied(args, c, i)
  }

  function U32(data: seq<byte>, o: nat): nat
    requires o + 4 <= |data|
  {
    FromLe(data[o..o + 4])
  }

  function U64(data: seq<byte>, o: nat): nat
    requires o + 8 <= |data|
  {
    FromLe(data[o..o + 8])
  }

  /** The arguments once the first `i` copies are made: each copy's address instead of the array's. */
  function Patched(at: nat, off: nat, args: seq<nat>, c: Command, i: nat): (r: seq<nat>)
    requires ArgsOf(args, c) && i <= |c.plan|
    ensures |r| == |args|
  {
    if i == 0 then args
    else
      var p, arg := Patched(at, off, args, c, i - 1), c.plan[i - 1].arg;
      if args[arg] == 0 then p else p[arg := at + Offset(off, args, c, i - 1)]
  }

  lemma {:induction false} PatchedAt(at: nat, off: nat, args: seq<nat>, c: Command, i: nat, k: nat)
    requires ArgsOf(args, c) && i <= |c.plan| && k < |args|
    ensures Patched(at, off, args, c, i)[k] ==
            match Find(c.plan, i, k)
            case Some(j) => if args[k] == 0 then 0 else at + Offset(off, args, c, j)
            case None => args[k]
  {
    if i > 0 {
      PatchedAt(at, off, args, c, i - 1, k);
      if k == c.plan[i - 1].arg {
        assert Find(c.plan, i - 1, k).None?;
      }
    }
  }

  ghost predicate WordsLie(data: seq<byte>, o: nat, words: seq<nat>)
  {
    o + 8 * |words| <= |data| && data[o..o + 8 * |words|] == Words(words)
  }

  ghost predicate CopiesWritten(data: seq<byte>, off: nat, args: seq<nat>, c: Command, mem: Memory, i: nat)
    requires ArgsOf(args, c) && i <= |c.plan|
  {
    forall j :: 0 <= j < i && args[c.plan[j].arg] != 0 ==> CopyLies(data, off, args, c, mem, j)
  }

  ghost predicate CopyLies(data: seq<byte>, off: nat, args: seq<nat>, c: Command, mem: Memory, j: nat)
    requires ArgsOf(args, c) && j < |c.plan|
  {
    var o, n := Offset(off, args, c, j), Extent(c.plan[j], args);
    o + n <= |data| && data[o..o + n] == Peek(mem, args[c.plan[j].arg], n)
  }

  /** A whole record at `off`; what lies between its copies is anything. */
  ghost predicate IsRecord(data: seq<byte>, at: nat, off: nat, id: nat, args: seq<nat>, c: Command, mem: Memory)
    requires ArgsOf(args, c)
  {
    && off + Need(args, c) <= |data|
    && U32(data, off) == id && U32(data, off + 4) == |args| && U32(data, off + 8) == Need(args, c)
    && WordsLie(data, off + 16, Patched(at, off, args, c, |c.plan|))
    && CopiesWritten(data, off, args, c, mem, |c.plan|)
  }

  // ---------------------------------------------------------------- writing one

  function Splice(data: seq<byte>, o: nat, bytes: seq<byte>): (r: seq<byte>)
    requires o + |bytes| <= |data|
    ensures |r| == |data|
  {
    data[..o] + bytes + data[o + |bytes|..]
  }

  lemma SpliceIn(data: seq<byte>, o: nat, bytes: seq<byte>)
    requires o + |bytes| <= |data|
    ensures Splice(data, o, bytes)[o..o + |bytes|] == bytes
  {
  }

  lemma SpliceOut(data: seq<byte>, o: nat, bytes: seq<byte>, a: nat, b: nat)
    requires o + |bytes| <= |data| && a <= b <= |data| && (b <= o || o + |bytes| <= a)
    ensures Splice(data, o, bytes)[a..b] == data[a..b]
  {
    var r := Splice(data, o, bytes);
    assert forall i :: a <= i < b ==> r[i] == data[i];
  }

  function Words(args: seq<nat>): (r: seq<byte>)
    ensures |r| == 8 * |args|
  {
    if args == [] then [] else Le(args[0], 8) + Words(args[1..])
  }

  lemma {:induction false} WordAt(args: seq<nat>, k: nat)
    requires k < |args| && args[k] < TWO64
    ensures U64(Words(args), 8 * k) == args[k]
  {
    var rest := Words(args[1..]);
    if k == 0 {
      assert Words(args)[0..8] == Le(args[0], 8);
      Powers();
      LeRoundTrip(args[0], 8);
    } else {
      WordAt(args[1..], k - 1);
      assert Words(args)[8 * k..8 * k + 8] == rest[8 * (k - 1)..8 * (k - 1) + 8];
    }
  }

  lemma {:induction false} WordPut(args: seq<nat>, k: nat, v: nat)
    requires k < |args|
    ensures Words(args[k := v]) == Words(args)[..8 * k] + Le(v, 8) + Words(args)[8 * k + 8..]
  {
    var head, rest := Le(args[0], 8), Words(args[1..]);
    if k == 0 {
      assert args[0 := v][1..] == args[1..];
    } else {
      WordPut(args[1..], k - 1, v);
      assert args[k := v][1..] == args[1..][k - 1 := v];
      assert Words(args)[..8 * k] == head + rest[..8 * (k - 1)];
      assert Words(args)[8 * k + 8..] == rest[8 * (k - 1) + 8..];
    }
  }

  lemma CopyWithin(args: seq<nat>, c: Command, off: nat, j: nat, i: nat)
    requires ArgsOf(args, c) && j < i <= |c.plan| && args[c.plan[j].arg] != 0
    ensures Offset(off, args, c, j) + Extent(c.plan[j], args) <= Offset(off, args, c, i) <= off + Need(args, c)
  {
    CopiedGrows(args, c, j + 1, i);
    CopiedGrows(args, c, i, |c.plan|);
  }

  lemma CopyStays(data: seq<byte>, r: seq<byte>, off: nat, args: seq<nat>, c: Command, mem: Memory, j: nat, lo: nat,
                  hi: nat)
    requires ArgsOf(args, c) && j < |c.plan| && CopyLies(data, off, args, c, mem, j) && |r| == |data|
    requires lo <= Offset(off, args, c, j) && Offset(off, args, c, j) + Extent(c.plan[j], args) <= hi <= |data|
    requires r[lo..hi] == data[lo..hi]
    ensures CopyLies(r, off, args, c, mem, j)
  {
    var o, n := Offset(off, args, c, j), Extent(c.plan[j], args);
    SamePart(r, data, lo, hi, o, o + n);
  }

  lemma CopiesStay(data: seq<byte>, r: seq<byte>, off: nat, args: seq<nat>, c: Command, mem: Memory, i: nat, hi: nat)
    requires ArgsOf(args, c) && i <= |c.plan| && |data| == |r| && Offset(off, args, c, i) <= hi <= |data|
    requires CopiesWritten(data, off, args, c, mem, i)
    requires var w := off + 16 + 8 * |args|; w <= hi && r[w..hi] == data[w..hi]
    ensures CopiesWritten(r, off, args, c, mem, i)
  {
    hide CopyLies;
    forall j | 0 <= j < i && args[c.plan[j].arg] != 0
      ensures CopyLies(r, off, args, c, mem, j)
    {
      CopyWithin(args, c, off, j, i);
      CopyStays(data, r, off, args, c, mem, j, off + 16 + 8 * |args|, hi);
    }
  }

  /** A copy's bytes are put after the arguments and after every earlier copy. */
  lemma ArrayPut(data: seq<byte>, r: seq<byte>, off: nat, args: seq<nat>, c: Command, mem: Memory, i: nat,
                 put: seq<byte>, words: seq<nat>)
    requires ArgsOf(args, c) && i < |c.plan| && off + Need(args, c) <= |data|
    requires WordsLie(data, off + 16, words) && |words| == |args| && CopiesWritten(data, off, args, c, mem, i)
    requires args[c.plan[i].arg] != 0 && |put| == Extent(c.plan[i], args)
    requires put == Peek(mem, args[c.plan[i].arg], |put|)
    requires Offset(off, args, c, i) + |put| <= |data| && r == Splice(data, Offset(off, args, c, i), put)
    ensures WordsLie(r, off + 16, words) && CopiesWritten(r, off, args, c, mem, i + 1)
  {
    var o, w := Offset(off, args, c, i), off + 16 + 8 * |args|;
    SpliceIn(data, o, put);
    assert CopyLies(r, off, args, c, mem, i);
    assert w <= o;
    SpliceOut(data, o, put, off + 16, w);
    SpliceOut(data, o, put, w, o);
    hide Splice, Words, CopyLies, Extent, Copied, Peek;
    CopiesStay(data, r, off, args, c, mem, i, o);
  }

  lemma PatchedStep(at: nat, off: nat, args: seq<nat>, c: Command, i: nat)
    requires ArgsOf(args, c) && i < |c.plan|
    ensures var k := c.plan[i].arg;
            0 < k < |args|
            && Patched(at, off, args, c, i + 1) ==
               if args[k] == 0 then Patched(at, off, args, c, i)
               else Patched(at, off, args, c, i)[k := at + Offset(off, args, c, i)]
  {
  }

  lemma WordReplaced(data: seq<byte>, r: seq<byte>, o: nat, words: seq<nat>, k: nat, v: nat)
    requires k < |words| && WordsLie(data, o, words)
    requires r == Splice(data, o + 8 * k, Le(v, 8))
    ensures WordsLie(r, o, words[k := v])
  {
    WordPut(words, k, v);
    hide Words, Le;
    var e, n := o + 8 * k, 8 * |words|;
    PartOf(data, o, Words(words), 0, 8 * k);
    PartOf(data, o, Words(words), 8 * k + 8, n);
    SpliceOut(data, e, Le(v, 8), o, e);
    SpliceOut(data, e, Le(v, 8), e + 8, o + n);
    SpliceIn(data, e, Le(v, 8));
    hide Splice;
    assert r[o..o + n] == r[o..e] + r[e..e + 8] + r[e + 8..o + n];
  }

  function Head(id: nat, argc: nat, need: nat): (r: seq<byte>)
    ensures |r| == 16
  {
    (Le(id, 4) + Le(argc, 4)) + (Le(need, 4) + Le(0, 4))
  }

  /** Four little-endian words: the command, its number of arguments, the record's size, and 0. */
  lemma HeadBytes(id: nat, argc: nat, need: nat)
    ensures var r := Head(id, argc, need);
            r[..4] == Le(id, 4) && r[4..8] == Le(argc, 4) && r[8..12] == Le(need, 4) && r[12..] == [0, 0, 0, 0]
  {
    var r := Head(id, argc, need);
    assert Le(0, 2) == [0] + Le(0, 1) && Le(0, 3) == [0] + Le(0, 2) && Le(0, 4) == [0] + Le(0, 3);
    hide Le;
    assert r == Le(id, 4) + Le(argc, 4) + Le(need, 4) + Le(0, 4);
  }

  ghost predicate HeadLies(data: seq<byte>, off: nat, id: nat, argc: nat, need: nat)
  {
    off + 16 <= |data| && data[off..off + 16] == Head(id, argc, need)
  }

  lemma HeadReads(data: seq<byte>, off: nat, id: nat, argc: nat, need: nat)
    requires HeadLies(data, off, id, argc, need) && id < TWO32 && argc < TWO32 && need < TWO32
    ensures U32(data, off) == id && U32(data, off + 4) == argc && U32(data, off + 8) == need
  {
    Powers();
    LeRoundTrip(id, 4);
    LeRoundTrip(argc, 4);
    LeRoundTrip(need, 4);
    hide Le, FromLe, Pow256;
    var h := Head(id, argc, need);
    PartOf(data, off, h, 0, 4);
    PartOf(data, off, h, 4, 8);
    PartOf(data, off, h, 8, 12);
    assert h[0..4] == Le(id, 4) && h[4..8] == Le(argc, 4) && h[8..12] == Le(need, 4);
  }

  /** The first `i` copies are made and nothing before the record has changed. */
  ghost predicate Made(was: seq<byte>, data: seq<byte>, at: nat, off: nat, id: nat, args: seq<nat>, c: Command,
                       mem: Memory, i: nat)
    requires ArgsOf(args, c) && i <= |c.plan|
  {
    && |data| == |was| && off + Need(args, c) <= |data| && data[0..off] == was[0..off]
    && HeadLies(data, off, id, |args|, Need(args, c))
    && WordsLie(data, off + 16, Patched(at, off, args, c, i)) && CopiesWritten(data, off, args, c, mem, i)
  }

  lemma HeadAndArgsMade(was: seq<byte>, headed: seq<byte>, data: seq<byte>, at: nat, off: nat, id: nat,
                        args: seq<nat>, c: Command, mem: Memory)
    requires ArgsOf(args, c) && off + Need(args, c) <= |was|
    requires headed == Splice(was, off, Head(id, |args|, Need(args, c)))
             && data == Splice(headed, off + 16, Words(args))
    ensures Made(was, data, at, off, id, args, c, mem, 0)
  {
    hide Head, Words, ArgsOf;
    SpliceIn(was, off, Head(id, |args|, Need(args, c)));
    SpliceOut(was, off, Head(id, |args|, Need(args, c)), 0, off);
    SpliceIn(headed, off + 16, Words(args));
    SpliceOut(headed, off + 16, Words(args), 0, off);
    SpliceOut(headed, off + 16, Words(args), off, off + 16);
    hide Splice;
  }

  lemma ArrayMade(was: seq<byte>, data: seq<byte>, r: seq<byte>, at: nat, off: nat, id: nat, args: seq<nat>,
                  c: Command, mem: Memory, i: nat,
                  put: seq<byte>, o: nat)
    requires ArgsOf(args, c) && i < |c.plan| && Made(was, data, at, off, id, args, c, mem, i)
    requires args[c.plan[i].arg] != 0 && |put| == Extent(c.plan[i], args) && o == Offset(off, args, c, i)
    requires put == Peek(mem, args[c.plan[i].arg], |put|) && o + |put| <= |data| && r == Splice(data, o, put)
    ensures |r| == |was| && r[0..off] == was[0..off] && HeadLies(r, off, id, |args|, Need(args, c))
    ensures WordsLie(r, off + 16, Patched(at, off, args, c, i)) && CopiesWritten(r, off, args, c, mem, i + 1)
  {
    ArrayPut(data, r, off, args, c, mem, i, put, Patched(at, off, args, c, i));
    SpliceOut(data, o, put, 0, off);
    SpliceOut(data, o, put, off, off + 16);
    hide Splice, ArgsOf, WordsLie, CopiesWritten, Copied, Patched, Extent, Peek, Head;
  }

  lemma AddressMade(was: seq<byte>, data: seq<byte>, r: seq<byte>, at: nat, off: nat, id: nat, args: seq<nat>,
                    c: Command, mem: Memory, i: nat,
                    a: nat, v: nat)
    requires ArgsOf(args, c) && i < |c.plan| && off + Need(args, c) <= |data|
    requires |data| == |was| && data[0..off] == was[0..off] && HeadLies(data, off, id, |args|, Need(args, c))
    requires WordsLie(data, off + 16, Patched(at, off, args, c, i)) && CopiesWritten(data, off, args, c, mem, i + 1)
    requires args[c.plan[i].arg] != 0 && a == off + 16 + 8 * c.plan[i].arg && v == at + Offset(off, args, c, i)
    requires a + 8 <= off + 16 + 8 * |args| && r == Splice(data, a, Le(v, 8))
    ensures Made(was, r, at, off, id, args, c, mem, i + 1)
  {
    hide Le, Copied, Extent, CopiesWritten, Words, Head, WordsLie, Splice, Patched;
    PatchedStep(at, off, args, c, i);
    WordReplaced(data, r, off + 16, Patched(at, off, args, c, i), c.plan[i].arg, v);
    CopiesAfter(data, r, off, args, c, mem, i + 1, a, Le(v, 8));
    SpliceOut(data, a, Le(v, 8), 0, off);
    SpliceOut(data, a, Le(v, 8), off, off + 16);
  }

  /** Writing among the arguments leaves the copies alone. */
  lemma CopiesAfter(data: seq<byte>, r: seq<byte>, off: nat, args: seq<nat>, c: Command, mem: Memory, i: nat, a: nat,
                    put: seq<byte>)
    requires ArgsOf(args, c) && i <= |c.plan| && off + Need(args, c) <= |data|
             && CopiesWritten(data, off, args, c, mem, i)
    requires a + |put| <= off + 16 + 8 * |args| && r == Splice(data, a, put)
    ensures CopiesWritten(r, off, args, c, mem, i)
  {
    SpliceOut(data, a, put, off + 16 + 8 * |args|, |data|);
    CopiedGrows(args, c, i, |c.plan|);
    hide CopiesWritten, Copied, Splice;
    CopiesStay(data, r, off, args, c, mem, i, |data|);
  }

  method AddCopy(ghost was: seq<byte>, data: seq<byte>, at: nat, ghost off: nat, ghost id: nat, args: seq<nat>,
                 c: Command,
                 mem: Memory, ghost i: nat, copy: Copy, a: nat, d: nat)
    returns (r: seq<byte>)
    requires ArgsOf(args, c) && i < |c.plan| && copy == c.plan[i] && args[copy.arg] != 0
    requires Made(was, data, at, off, id, args, c, mem, i)
    requires a == off + 16 + 8 * copy.arg && d == Offset(off, args, c, i)
    ensures Made(was, r, at, off, id, args, c, mem, i + 1)
  {
    hide Le, Peek, Extent, Splice, WordsLie, CopiesWritten, HeadLies, Copied, Patched;
    CopyWithin(args, c, off, i, i + 1);
    var put := Peek(mem, args[copy.arg], Extent(copy, args));
    var mid := Splice(data, d, put);
    ArrayMade(was, data, mid, at, off, id, args, c, mem, i, put, d);
    r := Splice(mid, a, Le(at + d, 8));
    AddressMade(was, mid, r, at, off, id, args, c, mem, i, a, at + d);
  }

  /** A null pointer has no copy. */
  lemma NothingMade(was: seq<byte>, data: seq<byte>, at: nat, off: nat, id: nat, args: seq<nat>, c: Command,
                    mem: Memory, i: nat)
    requires ArgsOf(args, c) && i < |c.plan| && Made(was, data, at, off, id, args, c, mem, i)
    requires args[c.plan[i].arg] == 0
    ensures Made(was, data, at, off, id, args, c, mem, i + 1)
  {
  }

  lemma NeedIs(args: seq<nat>, c: Command)
    requires ArgsOf(args, c)
    ensures Need(args, c) >= 16 + 8 * |args|
  {
  }

  lemma CopiedStarts(args: seq<nat>, c: Command)
    requires ArgsOf(args, c)
    ensures Copied(args, c, 0) == 0
  {
  }

  lemma CopiedStep(args: seq<nat>, c: Command, i: nat)
    requires ArgsOf(args, c) && i < |c.plan|
    ensures c.plan[i].arg < |args|
    ensures Copied(args, c, i + 1) ==
            Copied(args, c, i) + if args[c.plan[i].arg] == 0 then 0 else Round8(Extent(c.plan[i], args))
  {
  }

  method WriteRecord(was: seq<byte>, at: nat, off: nat, id: nat, args: seq<nat>, c: Command, mem: Memory)
    returns (data: seq<byte>)
    requires ArgsOf(args, c) && id < TWO32 && off + Need(args, c) <= |was| < TWO32
    ensures |data| == |was| && data[..off] == was[..off]
    ensures IsRecord(data, at, off, id, args, c, mem)
  {
    hide Made, Splice, Le, Words, Head, Peek, Extent, WellPlanned, IsRecord, Copied;
    NeedIs(args, c);
    CopiedStarts(args, c);
    var headed := Splice(was, off, Head(id, |args|, Need(args, c)));
    data := Splice(headed, off + 16, Words(args));
    HeadAndArgsMade(was, headed, data, at, off, id, args, c, mem);
    var d := off + 16 + 8 * |args|;
    for i := 0 to |c.plan|
      invariant d == Offset(off, args, c, i) && Made(was, data, at, off, id, args, c, mem, i)
    {
      ArgWithin(args, c, i);
      var copy := c.plan[i];
      if args[copy.arg] != 0 {
        data := AddCopy(was, data, at, off, id, args, c, mem, i, copy, off + 16 + 8 * copy.arg, d);
        CopiedStep(args, c, i);
        d := d + Round8(Extent(copy, args));
      } else {
        NothingMade(was, data, at, off, id, args, c, mem, i);
        CopiedStep(args, c, i);
      }
    }
    WholeMade(was, data, at, off, id, args, c, mem);
  }

  lemma WholeMade(was: seq<byte>, data: seq<byte>, at: nat, off: nat, id: nat, args: seq<nat>, c: Command, mem: Memory)
    requires ArgsOf(args, c) && id < TWO32 && off + Need(args, c) <= |was| < TWO32
    requires Made(was, data, at, off, id, args, c, mem, |c.plan|)
    ensures |data| == |was| && data[..off] == was[..off]
    ensures IsRecord(data, at, off, id, args, c, mem)
  {
    HeadReads(data, off, id, |args|, Need(args, c));
  }
}
