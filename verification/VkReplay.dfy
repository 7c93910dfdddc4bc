/** The host's replay of a batch: what it makes of records laid end to end, and of anything else. */
module VkReplay {
  import opened Wrappers
  import opened Bytes
  import opened VkRecord

  const BATCH_MAX: nat := 1024 * 1024

  /** Memory as the host's driver sees it while it replays: the batch's bytes where the batch lies. */
  function HostView(mem: Memory, at: nat, data: seq<byte>): Memory
  {
    (a: nat) => if at <= a < at + |data| then data[a - at] else mem(a)
  }

  function ReadWords(data: seq<byte>, o: nat, n: nat): (r: seq<nat>)
    requires o + 8 * n <= |data|
    ensures |r| == n && forall k :: 0 <= k < n ==> r[k] == U64(data, o + 8 * k) < TWO64
  {
    if n == 0 then []
    else
      Powers();
      FromLeBound(data[o + 8 * (n - 1)..o + 8 * n]);
      ReadWords(data, o, n - 1) + [U64(data, o + 8 * (n - 1))]
  }

  /** The commands made on the host's command buffer, and whether the whole batch was accepted. */
  datatype Replayed = Replayed(calls: seq<Call>, ok: bool)

  /**
   * A record the host accepts at `off`: whole, of a batchable command with its argument count, on this
   * command buffer.
   */
  predicate Accepts(data: seq<byte>, off: nat, wrapper: nat, table: Commands)
    requires off <= |data|
  {
    && |data| - off >= 16
    && var id, argc, size := U32(data, off), U32(data, off + 4), U32(data, off + 8);
       && argc <= MAX_ARGS && size >= 16 + 8 * argc && size % 8 == 0 && size <= |data| - off
       && id in table && table[id].argc == argc
       && argc > 0 && U64(data, off + 16) == wrapper
  }

  function Replay(data: seq<byte>, at: nat, mem: Memory, off: nat, wrapper: nat, table: Commands): Replayed
    requires off <= |data| && WellFormed(table)
    decreases |data| - off
  {
    if off == |data| then Replayed([], true)
    else if !Accepts(data, off, wrapper, table) then Replayed([], false)
    else
      var id := U32(data, off);
      var args := ReadWords(data, off + 16, U32(data, off + 4));
      var rest := Replay(data, at, mem, off + U32(data, off + 8), wrapper, table);
      Replayed([Meaning(id, args, table[id], HostView(mem, at, data))] + rest.calls, rest.ok)
  }

  // ---------------------------------------------------------------- records laid end to end

  /** A batched command as it was made: its arguments, and memory at that moment. */
  datatype Entry = Entry(id: nat, args: seq<nat>, mem: Memory)

  ghost predicate Legal(e: Entry, wrapper: nat, table: Commands)
  {
    && e.id in table && ArgsOf(e.args, table[e.id])
    && |e.args| <= MAX_ARGS && e.args[0] == wrapper && Need(e.args, table[e.id]) < TWO32
  }

  function Meant(es: seq<Entry>, table: Commands): seq<Call>
    requires forall i :: 0 <= i < |es| ==> es[i].id in table && ArgsOf(es[i].args, table[es[i].id])
  {
    if es == [] then []
    else [Meaning(es[0].id, es[0].args, table[es[0].id], es[0].mem)] + Meant(es[1..], table)
  }

  ghost predicate AllLegal(es: seq<Entry>, wrapper: nat, table: Commands)
  {
    forall i :: 0 <= i < |es| ==> Legal(es[i], wrapper, table)
  }

  ghost predicate Laid(data: seq<byte>, at: nat, off: nat, es: seq<Entry>, wrapper: nat, table: Commands)
    requires AllLegal(es, wrapper, table)
    decreases |es|
  {
    if es == [] then off == |data|
    else
      var e, c := es[0], table[es[0].id];
      && IsRecord(data, at, off, e.id, e.args, c, e.mem)
      && Laid(data, at, off + Need(e.args, c), es[1..], wrapper, table)
  }

  lemma ReadsPatched(data: seq<byte>, at: nat, off: nat, args: seq<nat>, c: Command, k: nat)
    requires ArgsOf(args, c) && off + Need(args, c) <= |data| && at + |data| < TWO64 && k < |args|
    requires WordsLie(data, off + 16, Patched(at, off, args, c, |c.plan|))
    ensures U64(data, off + 16 + 8 * k) == Patched(at, off, args, c, |c.plan|)[k]
  {
    var p := Patched(at, off, args, c, |c.plan|);
    PatchedAt(at, off, args, c, |c.plan|, k);
    var f := Find(c.plan, |c.plan|, k);
    if f.Some? && args[k] != 0 {
      CopyWithin(args, c, off, f.value, |c.plan|);
    }
    WordRead(data, off + 16, p, k);
  }

  lemma WordRead(data: seq<byte>, o: nat, words: seq<nat>, k: nat)
    requires WordsLie(data, o, words) && k < |words| && words[k] < TWO64
    ensures U64(data, o + 8 * k) == words[k]
  {
    WordAt(words, k);
    PartOf(data, o, Words(words), 8 * k, 8 * k + 8);
  }

  lemma SameExtent(args: seq<nat>, words: seq<nat>, at: nat, off: nat, c: Command, j: nat)
    requires ArgsOf(args, c) && j < |c.plan| && words == Patched(at, off, args, c, |c.plan|)
    ensures |words| == |args| && Extent(c.plan[j], words) == Extent(c.plan[j], args)
  {
    if c.plan[j].count.Param? {
      var p := c.plan[j].count.j;
      PatchedAt(at, off, args, c, |c.plan|, p);
      assert Find(c.plan, |c.plan|, p).None?;
    }
  }

  lemma CopyReads(data: seq<byte>, at: nat, off: nat, args: seq<nat>, c: Command, mem: Memory, now: Memory, j: nat)
    requires ArgsOf(args, c) && j < |c.plan| && CopyLies(data, off, args, c, mem, j)
    ensures Peek(HostView(now, at, data), at + Offset(off, args, c, j), Extent(c.plan[j], args))
         == Peek(mem, args[c.plan[j].arg], Extent(c.plan[j], args))
  {
    var o, n := Offset(off, args, c, j), Extent(c.plan[j], args);
    var view := HostView(now, at, data);
    var seen, lies := Peek(view, at + o, n), data[o..o + n];
    assert forall i :: 0 <= i < n ==> seen[i] == lies[i];
    assert seen == lies;
  }

  /** One argument reads the same from the batch as it did at the call. */
  lemma ValueKept(data: seq<byte>, at: nat, off: nat, id: nat, args: seq<nat>, words: seq<nat>, c: Command,
                  mem: Memory, now: Memory, k: nat)
    requires ArgsOf(args, c) && 0 < at && k < |args|
    requires ArgsOf(words, c) && words == Patched(at, off, args, c, |c.plan|)
    requires CopiesWritten(data, off, args, c, mem, |c.plan|)
    ensures ValueOf(words, c, HostView(now, at, data), k) == ValueOf(args, c, mem, k)
  {
    hide CopyLies, Peek, HostView, Extent, Offset;
    PatchedAt(at, off, args, c, |c.plan|, k);
    var f := Find(c.plan, |c.plan|, k);
    if f.Some? && args[k] != 0 {
      SameExtent(args, words, at, off, c, f.value);
      CopyReads(data, at, off, args, c, mem, now, f.value);
    }
  }

  /** A record means, whenever it is replayed, what its command meant when it was made. */
  lemma RecordMeans(data: seq<byte>, at: nat, off: nat, id: nat, args: seq<nat>, c: Command, mem: Memory, now: Memory)
    requires ArgsOf(args, c) && 0 < at && at + |data| < TWO64
    requires IsRecord(data, at, off, id, args, c, mem)
    ensures off + 16 + 8 * |args| <= |data|
    ensures var words := ReadWords(data, off + 16, |args|);
            words[0] == args[0] && Meaning(id, words, c, HostView(now, at, data)) == Meaning(id, args, c, mem)
  {
    hide Words, Extent, Copied, FromLe, CopiesWritten, CopyLies, ValueOf, Patched, WordsLie;
    var p, words := Patched(at, off, args, c, |c.plan|), ReadWords(data, off + 16, |args|);
    forall k | 0 <= k < |args|
      ensures words[k] == p[k]
    {
      ReadsPatched(data, at, off, args, c, k);
    }
    assert words == p;
    forall k | 0 <= k < |args|
      ensures ValueOf(words, c, HostView(now, at, data), k) == ValueOf(args, c, mem, k)
    {
      ValueKept(data, at, off, id, args, words, c, mem, now, k);
    }
    PatchedAt(at, off, args, c, |c.plan|, 0);
    assert Find(c.plan, |c.plan|, 0).None?;
  }

  /** Whatever the caller has done to its memory since, the host makes each command as it was made. */
  lemma {:induction false} ReplayLaid(data: seq<byte>, at: nat, off: nat, es: seq<Entry>, wrapper: nat,
                                      table: Commands, now: Memory)
    requires WellFormed(table) && AllLegal(es, wrapper, table) && off <= |data|
    requires 0 < at && at + |data| < TWO64 && Laid(data, at, off, es, wrapper, table)
    ensures Replay(data, at, now, off, wrapper, table) == Replayed(Meant(es, table), true)
    decreases |es|
  {
    hide IsRecord, Meaning, HostView, ReadWords, U32, Accepts, ArgsOf, Need;
    if es != [] {
      var e, c := es[0], table[es[0].id];
      assert Legal(es[0], wrapper, table);
      RecordAccepted(data, at, off, e, wrapper, table, now);
      ReplayLaid(data, at, off + Need(e.args, c), es[1..], wrapper, table, now);
    }
  }

  lemma RecordAccepted(data: seq<byte>, at: nat, off: nat, e: Entry, wrapper: nat, table: Commands, now: Memory)
    requires WellFormed(table) && Legal(e, wrapper, table) && off <= |data|
    requires 0 < at && at + |data| < TWO64 && IsRecord(data, at, off, e.id, e.args, table[e.id], e.mem)
    ensures Accepts(data, off, wrapper, table) && off < off + Need(e.args, table[e.id]) <= |data|
    ensures U32(data, off) == e.id && U32(data, off + 4) == |e.args| && U32(data, off + 8) == Need(e.args, table[e.id])
    ensures Meaning(e.id, ReadWords(data, off + 16, |e.args|), table[e.id], HostView(now, at, data))
         == Meaning(e.id, e.args, table[e.id], e.mem)
  {
    hide Meaning, WordsLie, CopiesWritten, FromLe, Copied;
    RecordMeans(data, at, off, e.id, e.args, table[e.id], e.mem, now);
  }

  // ---------------------------------------------------------------- adding one

  /** Bytes after a record do not change it. */
  lemma RecordGrows(data: seq<byte>, more: seq<byte>, at: nat, off: nat, id: nat, args: seq<nat>, c: Command,
                    mem: Memory)
    requires ArgsOf(args, c) && IsRecord(data, at, off, id, args, c, mem) && data <= more
    ensures IsRecord(more, at, off, id, args, c, mem)
  {
    hide CopyLies, Words, FromLe, Patched, Extent, Copied, Peek;
    var w, n := off + 16, off + 16 + 8 * |args|;
    assert more[off..off + 4] == data[off..off + 4];
    assert more[off + 4..off + 8] == data[off + 4..off + 8];
    assert more[off + 8..off + 12] == data[off + 8..off + 12];
    assert more[w..n] == data[w..n];
    forall j | 0 <= j < |c.plan| && args[c.plan[j].arg] != 0
      ensures CopyLies(more, off, args, c, mem, j)
    {
      CopyGrows(data, more, off, args, c, mem, j);
    }
  }

  lemma CopyGrows(data: seq<byte>, more: seq<byte>, off: nat, args: seq<nat>, c: Command, mem: Memory, j: nat)
    requires ArgsOf(args, c) && j < |c.plan| && CopyLies(data, off, args, c, mem, j) && data <= more
    ensures CopyLies(more, off, args, c, mem, j)
  {
    var o, n := Offset(off, args, c, j), Extent(c.plan[j], args);
    assert more[o..o + n] == data[o..o + n];
  }

  lemma {:induction false} LaidGrows(data: seq<byte>, more: seq<byte>, at: nat, off: nat, es: seq<Entry>, e: Entry,
                                     wrapper: nat, table: Commands)
    requires AllLegal(es, wrapper, table) && Legal(e, wrapper, table)
    requires Laid(data, at, off, es, wrapper, table) && data <= more
    requires |more| == |data| + Need(e.args, table[e.id])
    requires IsRecord(more, at, |data|, e.id, e.args, table[e.id], e.mem)
    ensures AllLegal(es + [e], wrapper, table) && Laid(more, at, off, es + [e], wrapper, table)
    decreases |es|
  {
    hide IsRecord, Need, ArgsOf;
    if es != [] {
      var d, c := es[0], table[es[0].id];
      RecordGrows(data, more, at, off, d.id, d.args, c, d.mem);
      LaidGrows(data, more, at, off + Need(d.args, c), es[1..], e, wrapper, table);
      assert (es + [e])[1..] == es[1..] + [e];
    }
  }

  // ---------------------------------------------------------------- the host

  /**
   * What the host makes of a batch call (records at `at`, their bytes, how many): nothing where the
   * lengths are refused.
   */
  function Batched(data: seq<byte>, at: nat, mem: Memory, count: nat, wrapper: nat, table: Commands): Replayed
    requires WellFormed(table)
  {
    if |data| > BATCH_MAX || |data| % 8 != 0 then Replayed([], false)
    else
      var r := Replay(data, at, mem, 0, wrapper, table);
      Replayed(r.calls, r.ok && |r.calls| == count)
  }

  method ReplayBatch(data: seq<byte>, at: nat, mem: Memory, count: nat, wrapper: nat, table: Commands)
    returns (calls: seq<Call>, ok: bool)
    requires WellFormed(table)
    ensures Replayed(calls, ok) == Batched(data, at, mem, count, wrapper, table)
  {
    hide Replay, Meaning, HostView, Accepts, ReadWords, U32, ArgsOf, WellFormed;
    calls := [];
    if |data| > BATCH_MAX || |data| % 8 != 0 {
      return calls, false;
    }
    var off := 0;
    while off < |data|
      invariant off <= |data|
      invariant var all, rest := Replay(data, at, mem, 0, wrapper, table), Replay(data, at, mem, off, wrapper, table);
                all.calls == calls + rest.calls && all.ok == rest.ok
      decreases |data| - off
    {
      if !Accepts(data, off, wrapper, table) {
        RefusedStops(data, at, mem, off, wrapper, table);
        return calls, false;
      }
      AcceptedMoves(data, at, mem, off, wrapper, table);
      var id, argc, size := U32(data, off), U32(data, off + 4), U32(data, off + 8);
      calls := calls + [Meaning(id, ReadWords(data, off + 16, argc), table[id], HostView(mem, at, data))];
      off := off + size;
    }
    AtTheEnd(data, at, mem, wrapper, table);
    ok := |calls| == count;
  }

  lemma AtTheEnd(data: seq<byte>, at: nat, mem: Memory, wrapper: nat, table: Commands)
    requires WellFormed(table)
    ensures Replay(data, at, mem, |data|, wrapper, table) == Replayed([], true)
  {
  }

  lemma RefusedStops(data: seq<byte>, at: nat, mem: Memory, off: nat, wrapper: nat, table: Commands)
    requires WellFormed(table) && off < |data| && !Accepts(data, off, wrapper, table)
    ensures Replay(data, at, mem, off, wrapper, table) == Replayed([], false)
  {
  }

  lemma AcceptedMoves(data: seq<byte>, at: nat, mem: Memory, off: nat, wrapper: nat, table: Commands)
    requires WellFormed(table) && off < |data| && Accepts(data, off, wrapper, table)
    ensures off + 16 <= |data|
    ensures U32(data, off) in table && off + 16 + 8 * U32(data, off + 4) <= off + U32(data, off + 8) <= |data|
    ensures ArgsOf(ReadWords(data, off + 16, U32(data, off + 4)), table[U32(data, off)])
    ensures var id, rest := U32(data, off), Replay(data, at, mem, off + U32(data, off + 8), wrapper, table);
            Replay(data, at, mem, off, wrapper, table)
            == Replayed([Meaning(id, ReadWords(data, off + 16, U32(data, off + 4)), table[id],
                                 HostView(mem, at, data))] + rest.calls, rest.ok)
  {
  }

  /**
   * A record is refused, and nothing after it made, exactly where it is not whole: fewer than 16 bytes
   * left, more than 32 arguments, a size that does not hold them, is no multiple of 8 or passes the end;
   * or where it is no batchable command with its number of arguments, or not on this command buffer. Any
   * other is made, and the next is looked for where its size says.
   */
  lemma RefusedExactly(data: seq<byte>, at: nat, mem: Memory, off: nat, wrapper: nat, table: Commands)
    requires WellFormed(table) && off < |data|
    ensures var got, left := Replay(data, at, mem, off, wrapper, table), |data| - off;
            if left < 16 then got == Replayed([], false)
            else
              var id, argc, size := U32(data, off), U32(data, off + 4), U32(data, off + 8);
              if argc > 32 || size < 16 + 8 * argc || size % 8 != 0 || size > left
                 || id !in table || table[id].argc != argc || U64(data, off + 16) != wrapper
              then got == Replayed([], false)
              else
                var rest := Replay(data, at, mem, off + size, wrapper, table);
                var args := ReadWords(data, off + 16, argc);
                && ArgsOf(args, table[id])
                && got == Replayed([Meaning(id, args, table[id], HostView(mem, at, data))] + rest.calls, rest.ok)
  {
  }

  /** A batch longer than a mebibyte, or of no multiple of 8, is refused whole; its count is of the commands made. */
  lemma BatchesRefused(data: seq<byte>, at: nat, mem: Memory, count: nat, wrapper: nat, table: Commands)
    requires WellFormed(table)
    ensures var got := Batched(data, at, mem, count, wrapper, table);
            if |data| > 1_048_576 || |data| % 8 != 0 then got == Replayed([], false)
            else
              var all := Replay(data, at, mem, 0, wrapper, table);
              got.calls == all.calls && (got.ok <==> all.ok && count == |all.calls|)
  {
    hide Replay;
  }

  /** The host's driver sees the batch where the batch lies, and everything else as it is. */
  lemma HostSees(mem: Memory, at: nat, data: seq<byte>)
    ensures Peek(HostView(mem, at, data), at, |data|) == data
    ensures forall a: nat :: a < at || a >= at + |data| ==> HostView(mem, at, data)(a) == mem(a)
  {
  }
}
