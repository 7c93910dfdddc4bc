/** The guest driver's batching: commands put off and sent together mean what sending each at once would. */
module VkDriver {
  import opened Wrappers
  import opened Bytes
  import opened VkRecord
  import opened VkReplay

  /** Records not yet sent: a buffer of BATCH_BYTES at `at`, of which `used` bytes hold `count` records. */
  datatype Batch = Batch(at: nat, data: seq<byte>, used: nat, count: nat)

  datatype CmdBuf = CmdBuf(pool: nat, batching: bool, batch: Option<Batch>)

  /** A buffer of the right size somewhere in the address space, with whatever bytes it last held. */
  predicate Usable(b: Batch)
  {
    |b.data| == BATCH_BYTES && b.used <= BATCH_BYTES && b.used % 8 == 0 && 0 < b.at && b.at + BATCH_BYTES < TWO64
  }

  /** The batch holds exactly the commands `es`, in order. */
  ghost predicate Holds(wrapper: nat, b: CmdBuf, es: seq<Entry>, table: Commands)
  {
    && AllLegal(es, wrapper, table)
    && (!b.batching ==> b.batch.None?)
    && match b.batch
       case None => es == []
       case Some(t) => Usable(t) && t.count == |es| && Laid(t.data[..t.used], t.at, 0, es, wrapper, table)
  }

  // ---------------------------------------------------------------- one command buffer

  lemma {:induction false} MeantAppend(es: seq<Entry>, e: Entry, wrapper: nat, table: Commands)
    requires AllLegal(es, wrapper, table) && Legal(e, wrapper, table)
    ensures AllLegal(es + [e], wrapper, table)
    ensures Meant(es + [e], table) == Meant(es, table) + [Meaning(e.id, e.args, table[e.id], e.mem)]
  {
    if es != [] {
      assert Legal(es[0], wrapper, table);
      MeantAppend(es[1..], e, wrapper, table);
      assert (es + [e])[1..] == es[1..] + [e];
    }
  }

  lemma {:induction false} MeantLength(es: seq<Entry>, wrapper: nat, table: Commands)
    requires AllLegal(es, wrapper, table)
    ensures |Meant(es, table)| == |es|
  {
    if es != [] {
      assert Legal(es[0], wrapper, table);
      MeantLength(es[1..], wrapper, table);
    }
  }

  /** The host accepts every batch the guest lays out, and makes its commands as they were meant. */
  lemma BatchedMeant(wrapper: nat, b: CmdBuf, es: seq<Entry>, mem: Memory, table: Commands)
    requires WellFormed(table) && Holds(wrapper, b, es, table) && b.batch.Some?
    ensures var t := b.batch.value;
            Batched(t.data[..t.used], t.at, mem, t.count, wrapper, table) == Replayed(Meant(es, table), true)
  {
    hide Meant, Replay, Laid;
    var t := b.batch.value;
    ReplayLaid(t.data[..t.used], t.at, 0, es, wrapper, table, mem);
    MeantLength(es, wrapper, table);
  }

  /** Sends what a batch holds, if anything; the buffer is kept. */
  method SendBatch(wrapper: nat, b: CmdBuf, ghost es: seq<Entry>, mem: Memory, table: Commands)
    returns (after: CmdBuf, made: seq<Call>)
    requires WellFormed(table) && Holds(wrapper, b, es, table)
    ensures after == b.(batch := after.batch) && after.batch.Some? == b.batch.Some?
    ensures after.batch.Some? ==> after.batch.value.used == 0
    ensures Holds(wrapper, after, [], table)
    ensures made == Meant(es, table)
  {
    hide Laid, Meant, Replay, Batched;
    if b.batch.None? || b.batch.value.used == 0 {
      EmptyBatch(wrapper, b, es, table);
      return b, [];
    }
    var t := b.batch.value;
    var ok;
    BatchedMeant(wrapper, b, es, mem, table);
    made, ok := ReplayBatch(t.data[..t.used], t.at, mem, t.count, wrapper, table);
    after := b.(batch := Some(t.(used := 0, count := 0)));
    EmptyHolds(wrapper, after, table);
  }

  lemma EmptyHolds(wrapper: nat, b: CmdBuf, table: Commands)
    requires b.batching || b.batch.None?
    requires b.batch.Some? ==> Usable(b.batch.value) && b.batch.value.used == 0 && b.batch.value.count == 0
    ensures Holds(wrapper, b, [], table)
  {
  }

  lemma EmptyBatch(wrapper: nat, b: CmdBuf, es: seq<Entry>, table: Commands)
    requires Holds(wrapper, b, es, table) && (b.batch.None? || b.batch.value.used == 0)
    ensures es == [] && Meant(es, table) == []
  {
    if b.batch.Some? {
      assert b.batch.value.data[..0] == [];
    }
  }

  /** One record more in a batch that has room for it. */
  method Append(wrapper: nat, b: CmdBuf, ghost es: seq<Entry>, id: nat, args: seq<nat>, mem: Memory, table: Commands)
    returns (after: CmdBuf)
    requires WellFormed(table) && Holds(wrapper, b, es, table) && b.batch.Some?
    requires Legal(Entry(id, args, mem), wrapper, table)
    requires b.batch.value.used + Need(args, table[id]) <= BATCH_BYTES
    ensures after == b.(batch := after.batch) && after.batch.Some?
    ensures Holds(wrapper, after, es + [Entry(id, args, mem)], table)
  {
    hide Laid, IsRecord, Copied, Meaning;
    var t, need := b.batch.value, Need(args, table[id]);
    var data := WriteRecord(t.data, t.at, t.used, id, args, table[id], mem);
    after := b.(batch := Some(t.(data := data, used := t.used + need, count := t.count + 1)));
    AppendHolds(wrapper, b, after, es, Entry(id, args, mem), table, data);
  }

  lemma AppendHolds(wrapper: nat, b: CmdBuf, after: CmdBuf, es: seq<Entry>, e: Entry, table: Commands, data: seq<byte>)
    requires WellFormed(table) && Holds(wrapper, b, es, table) && b.batch.Some? && Legal(e, wrapper, table)
    requires var t, need := b.batch.value, Need(e.args, table[e.id]);
             && t.used + need <= BATCH_BYTES == |data| && data[..t.used] == t.data[..t.used]
             && IsRecord(data, t.at, t.used, e.id, e.args, table[e.id], e.mem)
             && after == b.(batch := Some(t.(data := data, used := t.used + need, count := t.count + 1)))
    ensures Holds(wrapper, after, es + [e], table)
  {
    hide Laid, IsRecord, Copied;
    var t, need := b.batch.value, Need(e.args, table[e.id]);
    RecordCut(data, t.at, t.used, e.id, e.args, table[e.id], e.mem);
    LaidGrows(t.data[..t.used], data[..t.used + need], t.at, 0, es, e, wrapper, table);
  }

  /** A record is all within its own bytes. */
  lemma RecordCut(data: seq<byte>, at: nat, off: nat, id: nat, args: seq<nat>, c: Command, mem: Memory)
    requires ArgsOf(args, c) && IsRecord(data, at, off, id, args, c, mem)
    ensures IsRecord(data[..off + Need(args, c)], at, off, id, args, c, mem)
  {
    hide CopyLies, Words, FromLe, Patched, Extent, Copied, Peek;
    var cut := data[..off + Need(args, c)];
    var w, n := off + 16, off + 16 + 8 * |args|;
    assert cut[off..off + 4] == data[off..off + 4];
    assert cut[off + 4..off + 8] == data[off + 4..off + 8];
    assert cut[off + 8..off + 12] == data[off + 8..off + 12];
    assert cut[w..n] == data[w..n];
    forall j | 0 <= j < |c.plan| && args[c.plan[j].arg] != 0
      ensures CopyLies(cut, off, args, c, mem, j)
    {
      CopyCut(data, off, args, c, mem, j);
    }
  }

  lemma CopyCut(data: seq<byte>, off: nat, args: seq<nat>, c: Command, mem: Memory, j: nat)
    requires ArgsOf(args, c) && off + Need(args, c) <= |data| && j < |c.plan| && args[c.plan[j].arg] != 0
    requires CopyLies(data, off, args, c, mem, j)
    ensures CopyLies(data[..off + Need(args, c)], off, args, c, mem, j)
  {
    hide Copied, Peek, Extent;
    CopyWithin(args, c, off, j, |c.plan|);
    var o, n, cut := Offset(off, args, c, j), Extent(c.plan[j], args), data[..off + Need(args, c)];
    assert cut[o..o + n] == data[o..o + n];
  }

  // ---------------------------------------------------------------- what is asked of the driver

  datatype Event =
      Allocate(wrapper: nat, pool: nat)
    | Begin(wrapper: nat, batches: bool)
    | End(wrapper: nat)
    | Reset(wrapper: nat)
    | Batchable(id: nat, args: seq<nat>, room: Option<Batch>)
    | Unbatched(wrapper: nat, call: Call)
    | ResetPool(pool: nat)
    | DestroyPool(pool: nat)
    | Free(wrapper: nat)
    | Store(mem: Memory)

  /** Each live command buffer's pool and the commands recorded into it, and the caller's memory. */
  datatype Recorded = Recorded(pools: map<nat, nat>, lists: map<nat, seq<Call>>, mem: Memory)

  ghost predicate Allowed(s: Recorded, e: Event, table: Commands)
  {
    match e
    case Allocate(w, _) => w !in s.lists && 0 < w < TWO64
    case Begin(w, _) => w in s.lists
    case End(w) => w in s.lists
    case Reset(w) => w in s.lists
    case Batchable(id, args, room) =>
      && id in table && ArgsOf(args, table[id]) && args[0] in s.lists
      && (room.Some? ==> Usable(room.value))
    case Unbatched(w, _) => w in s.lists
    case ResetPool(_) => true
    case DestroyPool(_) => true
    case Free(w) => w in s.lists
    case Store(_) => true
  }

  /** Every command sent at once: what the host's command buffers then hold. */
  function Forwarded(s: Recorded, e: Event, table: Commands): Recorded
    requires s.lists.Keys == s.pools.Keys
    requires e.Batchable? ==> e.id in table && ArgsOf(e.args, table[e.id])
  {
    match e
    case Allocate(w, pool) => s.(pools := s.pools[w := pool], lists := s.lists[w := []])
    case Begin(w, _) => if w in s.lists then s.(lists := s.lists[w := []]) else s
    case End(_) => s
    case Reset(w) => if w in s.lists then s.(lists := s.lists[w := []]) else s
    case Batchable(id, args, _) =>
      if args[0] in s.lists
      then s.(lists := s.lists[args[0] := s.lists[args[0]] + [Meaning(id, args, table[id], s.mem)]])
      else s
    case Unbatched(w, call) => if w in s.lists then s.(lists := s.lists[w := s.lists[w] + [call]]) else s
    case ResetPool(pool) => s.(lists := map w | w in s.lists :: if s.pools[w] == pool then [] else s.lists[w])
    case DestroyPool(pool) =>
      s.(pools := map w | w in s.pools && s.pools[w] != pool :: s.pools[w],
         lists := map w | w in s.lists && s.pools[w] != pool :: s.lists[w])
    case Free(w) => s.(pools := s.pools - {w}, lists := s.lists - {w})
    case Store(mem) => s.(mem := mem)
  }

  ghost predicate AllAllowed(s: Recorded, es: seq<Event>, table: Commands)
    requires s.lists.Keys == s.pools.Keys
    decreases |es|
  {
    es == [] || (Allowed(s, es[0], table) && AllAllowed(Forwarded(s, es[0], table), es[1..], table))
  }

  ghost function ForwardedAll(s: Recorded, es: seq<Event>, table: Commands): Recorded
    requires s.lists.Keys == s.pools.Keys && AllAllowed(s, es, table)
    decreases |es|
  {
    if es == [] then s else ForwardedAll(Forwarded(s, es[0], table), es[1..], table)
  }

  // ---------------------------------------------------------------- the driver

  datatype How = Flush | AtBegin(batches: bool) | AtEnd | Discard

  /** The batch sent or dropped, and given back except before a command that only flushes. */
  method Synced(w: nat, b: CmdBuf, ghost es: seq<Entry>, how: How, mem: Memory, table: Commands)
    returns (after: CmdBuf, made: seq<Call>)
    requires WellFormed(table) && Holds(w, b, es, table)
    ensures Holds(w, after, [], table) && after.pool == b.pool
    ensures made == if how.Flush? || how.AtEnd? then Meant(es, table) else []
    ensures after.batching == if how.AtBegin? then how.batches else b.batching
    ensures !how.Flush? ==> after.batch.None?
  {
    hide Meant, Laid;
    after, made := b, [];
    if how.Flush? || how.AtEnd? {
      after, made := SendBatch(w, b, es, mem, table);
    }
    if !how.Flush? {
      after := after.(batch := None);
    }
    if how.AtBegin? {
      after := after.(batching := how.batches);
    }
  }

  /** A batchable command: put in the batch where it fits, sent at once (the batch before it) where it does not. */
  method Record(w: nat, b: CmdBuf, ghost es: seq<Entry>, id: nat, args: seq<nat>, room: Option<Batch>, mem: Memory,
                table: Commands)
    returns (after: CmdBuf, made: seq<Call>, ghost left: seq<Entry>)
    requires WellFormed(table) && Holds(w, b, es, table)
    requires id in table && ArgsOf(args, table[id]) && args[0] == w
    requires room.Some? ==> Usable(room.value)
    ensures Holds(w, after, left, table) && after.pool == b.pool
    ensures made + Meant(left, table) == Meant(es, table) + [Meaning(id, args, table[id], mem)]
    ensures var need, held := Need(args, table[id]), if b.batch.Some? then b.batch.value.used else 0;
            left ==
            if !b.batching || need > 16_384 || |args| > 32 || (b.batch.None? && room.None?) then []
            else (if held + need > 65_536 then [] else es) + [Entry(id, args, mem)]
  {
    hide Laid, Meaning, IsRecord, Copied;
    var need := Need(args, table[id]);
    var call := Meaning(id, args, table[id], mem);
    after := b;
    if !b.batching {
      return after, [call], [];
    }
    if need > RECORD_MAX || |args| > MAX_ARGS {
      after, made := SendBatch(w, b, es, mem, table);
      return after, made + [call], [];
    }
    if after.batch.None? {
      if room.None? {
        return after, [call], [];
      }
      after := after.(batch := Some(room.value.(used := 0, count := 0)));
      EmptyHolds(w, after, table);
    }
    left, made := es, [];
    if after.batch.value.used + need > BATCH_BYTES {
      after, made := SendBatch(w, after, es, mem, table);
      left := [];
    }
    ghost var e := Entry(id, args, mem);
    MeantAppend(left, e, w, table);
    after := Append(w, after, left, id, args, mem, table);
    left := left + [e];
  }

  /** One live command buffer: what the host has of it and what its batch holds make up its list. */
  ghost predicate Linked(w: nat, b: CmdBuf, sent: seq<Call>, es: seq<Entry>, pool: nat, list: seq<Call>,
                         table: Commands)
  {
    Holds(w, b, es, table) && b.pool == pool && sent + Meant(es, table) == list
  }

  lemma HasFirst(args: seq<nat>, c: Command)
    requires ArgsOf(args, c)
    ensures |args| > 0
  {
  }

  lemma Together(w: nat, b: CmdBuf, sent: seq<Call>, es: seq<Entry>, list: seq<Call>, table: Commands)
    requires Holds(w, b, es, table) && sent + Meant(es, table) == list
    ensures Linked(w, b, sent, es, b.pool, list, table)
  {
  }

  lemma LinkedEmpty(w: nat, b: CmdBuf, sent: seq<Call>, pool: nat, table: Commands)
    requires Holds(w, b, [], table) && b.pool == pool
    ensures Linked(w, b, sent, [], pool, sent, table)
  {
    assert sent + [] == sent;
  }

  lemma Regroup(sent: seq<Call>, made: seq<Call>, left: seq<Call>, held: seq<Call>, call: Call)
    requires made + left == held + [call]
    ensures (sent + made) + left == (sent + held) + [call]
  {
    assert (sent + made) + left == sent + (made + left) == sent + (held + [call]);
  }

  /** A pool's reset, as far as it has got: the buffers of `rest` are still to be looked at. */
  function ResetSo(s: Recorded, pool: nat, rest: set<nat>): Recorded
    requires s.lists.Keys == s.pools.Keys
  {
    s.(lists := map w | w in s.lists :: if w !in rest && s.pools[w] == pool then [] else s.lists[w])
  }

  lemma ResetSoStep(s: Recorded, pool: nat, rest: set<nat>, w: nat)
    requires s.lists.Keys == s.pools.Keys && w in s.lists
    ensures w in ResetSo(s, pool, rest).pools && ResetSo(s, pool, rest).pools[w] == s.pools[w]
    ensures ResetSo(s, pool, rest - {w}) ==
            if s.pools[w] == pool then Forwarded(ResetSo(s, pool, rest), Reset(w), map[]) else ResetSo(s, pool, rest)
  {
  }

  lemma ResetSoEnds(s: Recorded, pool: nat)
    requires s.lists.Keys == s.pools.Keys
    ensures ResetSo(s, pool, s.lists.Keys) == s
    ensures ResetSo(s, pool, {}) == Forwarded(s, ResetPool(pool), map[])
  {
  }

  /** A pool's destruction, likewise. */
  function DestroyedSo(s: Recorded, pool: nat, rest: set<nat>): Recorded
    requires s.lists.Keys == s.pools.Keys
  {
    s.(pools := map w | w in s.pools && (w in rest || s.pools[w] != pool) :: s.pools[w],
       lists := map w | w in s.lists && (w in rest || s.pools[w] != pool) :: s.lists[w])
  }

  lemma DestroyedSoStep(s: Recorded, pool: nat, rest: set<nat>, w: nat)
    requires s.lists.Keys == s.pools.Keys && w in rest && rest <= s.lists.Keys
    ensures var so := DestroyedSo(s, pool, rest);
            w in so.pools && so.pools[w] == s.pools[w]
            && DestroyedSo(s, pool, rest - {w}) ==
               if s.pools[w] == pool then so.(pools := so.pools - {w}, lists := so.lists - {w}) else so
  {
  }

  lemma DestroyedSoEnds(s: Recorded, pool: nat)
    requires s.lists.Keys == s.pools.Keys
    ensures DestroyedSo(s, pool, s.lists.Keys) == s
    ensures DestroyedSo(s, pool, {}) == Forwarded(s, DestroyPool(pool), map[])
  {
  }

  ghost predicate AllLinked(bufs: map<nat, CmdBuf>, host: map<nat, seq<Call>>, unsent: map<nat, seq<Entry>>,
                            direct: Recorded, table: Commands)
  {
    && bufs.Keys == host.Keys == unsent.Keys == direct.lists.Keys == direct.pools.Keys
    && forall w :: w in bufs ==> Linked(w, bufs[w], host[w], unsent[w], direct.pools[w], direct.lists[w], table)
  }

  lemma PutLinked(bufs: map<nat, CmdBuf>, host: map<nat, seq<Call>>, unsent: map<nat, seq<Entry>>, direct: Recorded,
                  table: Commands, w: nat, b: CmdBuf, sent: seq<Call>, es: seq<Entry>, pool: nat, list: seq<Call>)
    requires AllLinked(bufs, host, unsent, direct, table) && Linked(w, b, sent, es, pool, list, table)
    ensures AllLinked(bufs[w := b], host[w := sent], unsent[w := es],
                      direct.(pools := direct.pools[w := pool], lists := direct.lists[w := list]), table)
  {
    hide Linked;
  }

  lemma DropLinked(bufs: map<nat, CmdBuf>, host: map<nat, seq<Call>>, unsent: map<nat, seq<Entry>>, direct: Recorded,
                   table: Commands, w: nat)
    requires AllLinked(bufs, host, unsent, direct, table)
    ensures AllLinked(bufs - {w}, host - {w}, unsent - {w},
                      direct.(pools := direct.pools - {w}, lists := direct.lists - {w}), table)
  {
    hide Linked;
  }

  class Driver {
    const table: Commands
    /** The guest's command buffers, and the host's lists for the same. */
    var bufs: map<nat, CmdBuf>
    var host: map<nat, seq<Call>>
    var mem: Memory
    /** The commands each batch holds; what sending every command at once would have made. */
    ghost var unsent: map<nat, seq<Entry>>
    ghost var direct: Recorded

    ghost predicate Valid()
      reads this
    {
      && WellFormed(table) && mem == direct.mem
      && bufs.Keys == direct.lists.Keys == direct.pools.Keys && AllLinked(bufs, host, unsent, direct, table)
    }

    constructor (table: Commands, mem: Memory)
      requires WellFormed(table)
      ensures Valid() && this.table == table && direct == Recorded(map[], map[], mem)
    {
      this.table, this.mem := table, mem;
      bufs, host, unsent, direct := map[], map[], map[], Recorded(map[], map[], mem);
    }

    method Put(w: nat, b: CmdBuf, sent: seq<Call>, ghost es: seq<Entry>, ghost pool: nat, ghost list: seq<Call>)
      requires Valid() && Linked(w, b, sent, es, pool, list, table)
      modifies this
      ensures Valid() && bufs == old(bufs)[w := b] && host == old(host)[w := sent] && unsent == old(unsent)[w := es]
      ensures direct == old(direct).(pools := old(direct).pools[w := pool], lists := old(direct).lists[w := list])
    {
      hide AllLinked, Linked, WellFormed;
      PutLinked(bufs, host, unsent, direct, table, w, b, sent, es, pool, list);
      bufs, host := bufs[w := b], host[w := sent];
      unsent, direct := unsent[w := es], direct.(pools := direct.pools[w := pool], lists := direct.lists[w := list]);
    }

    method Drop(w: nat)
      requires Valid()
      modifies this
      ensures Valid() && bufs == old(bufs) - {w} && host == old(host) - {w}
      ensures direct == old(direct).(pools := old(direct).pools - {w}, lists := old(direct).lists - {w})
    {
      hide AllLinked, WellFormed;
      DropLinked(bufs, host, unsent, direct, table, w);
      bufs, host := bufs - {w}, host - {w};
      unsent, direct := unsent - {w}, direct.(pools := direct.pools - {w}, lists := direct.lists - {w});
    }

    method AllocateBuffer(w: nat, pool: nat)
      requires Valid() && w !in bufs
      modifies this
      ensures Valid() && direct == Forwarded(old(direct), Allocate(w, pool), table)
    {
      hide Linked, WellFormed;
      var b := CmdBuf(pool, false, None);
      EmptyHolds(w, b, table);
      LinkedEmpty(w, b, [], pool, table);
      Put(w, b, [], [], pool, []);
    }

    /** vkBeginCommandBuffer and vkResetCommandBuffer: the batch is dropped, and the host starts an empty list. */
    method StartOver(w: nat, how: How)
      requires Valid() && w in bufs && (how.AtBegin? || how.Discard?)
      modifies this
      ensures Valid() && bufs.Keys == old(bufs).Keys && direct == Forwarded(old(direct), Reset(w), table)
      ensures w in bufs && w in host && bufs[w].batch.None? && host[w] == []
    {
      hide Valid, Linked, WellFormed, Holds, Meant;
      Apart(w);
      var b, _ := Synced(w, bufs[w], unsent[w], how, mem, table);
      LinkedEmpty(w, b, [], b.pool, table);
      Put(w, b, [], [], b.pool, []);
    }

    lemma KeysAgree()
      requires Valid()
      ensures bufs.Keys == direct.lists.Keys == direct.pools.Keys == host.Keys == unsent.Keys
    {
    }

    lemma PoolsStay(w: nat)
      requires Valid() && w in bufs
      ensures w in direct.pools && direct.pools[w] == bufs[w].pool && direct.pools[w := bufs[w].pool] == direct.pools
    {
      assert Linked(w, bufs[w], host[w], unsent[w], direct.pools[w], direct.lists[w], table);
    }

    /** vkEndCommandBuffer: afterwards the host has every command recorded. */
    method EndBuffer(w: nat)
      requires Valid() && w in bufs
      modifies this
      ensures Valid() && direct == Forwarded(old(direct), End(w), table)
      ensures w in bufs && w in host && bufs[w].batch.None? && host[w] == direct.lists[w]
    {
      hide Valid, Linked, WellFormed, Holds, Meant;
      Apart(w);
      var b, made := Synced(w, bufs[w], unsent[w], AtEnd, mem, table);
      var sent := host[w] + made;
      LinkedEmpty(w, b, sent, b.pool, table);
      assert direct.lists[w := sent] == direct.lists;
      Put(w, b, sent, [], b.pool, sent);
    }

    /** A command that is not batched: the host makes it after everything recorded before it. */
    method Send(w: nat, call: Call)
      requires Valid() && w in bufs
      modifies this
      ensures Valid() && direct == Forwarded(old(direct), Unbatched(w, call), table)
      ensures w in host && host[w] == direct.lists[w]
    {
      hide Valid, Linked, WellFormed, Holds, Meant;
      Apart(w);
      var b, made := Synced(w, bufs[w], unsent[w], Flush, mem, table);
      var sent := host[w] + made + [call];
      LinkedEmpty(w, b, sent, b.pool, table);
      Put(w, b, sent, [], b.pool, sent);
    }

    method RecordCommand(id: nat, args: seq<nat>, room: Option<Batch>)
      requires Valid() && id in table && ArgsOf(args, table[id]) && args[0] in bufs
      requires room.Some? ==> Usable(room.value)
      modifies this
      ensures Valid() && direct == Forwarded(old(direct), Batchable(id, args, room), table)
    {
      hide Linked, Valid, Meaning, Meant, Usable, WellFormed, WellPlanned, Laid;
      HasFirst(args, table[id]);
      var w := args[0];
      Apart(w);
      var b, made, left := Record(w, bufs[w], unsent[w], id, args, room, mem, table);
      ghost var call := Meaning(id, args, table[id], mem);
      Regroup(host[w], made, Meant(left, table), Meant(unsent[w], table), call);
      Together(w, b, host[w] + made, left, direct.lists[w] + [call], table);
      Put(w, b, host[w] + made, left, b.pool, direct.lists[w] + [call]);
    }

    lemma Apart(w: nat)
      requires Valid() && w in bufs
      ensures WellFormed(table) && mem == direct.mem && w in host && w in unsent && w in direct.lists
              && bufs.Keys == direct.lists.Keys
              && w in direct.pools
      ensures direct.lists.Keys == direct.pools.Keys
      ensures Holds(w, bufs[w], unsent[w], table) && host[w] + Meant(unsent[w], table) == direct.lists[w]
      ensures direct.pools[w] == bufs[w].pool && direct.pools[w := bufs[w].pool] == direct.pools
    {
      assert Linked(w, bufs[w], host[w], unsent[w], direct.pools[w], direct.lists[w], table);
    }

    method StoreMemory(now: Memory)
      requires Valid()
      modifies this
      ensures Valid() && direct == Forwarded(old(direct), Store(now), table)
    {
      hide WellFormed;
      mem := now;
      direct := direct.(mem := now);
    }

    method ResetIfIn(w: nat, pool: nat)
      requires Valid() && w in bufs && w in direct.pools
      modifies this
      ensures Valid() && bufs.Keys == old(bufs).Keys
      ensures direct == if old(direct.pools)[w] == pool then Forwarded(old(direct), Reset(w), map[]) else old(direct)
    {
      hide Valid;
      PoolsStay(w);
      if bufs[w].pool == pool {
        StartOver(w, Discard);
      }
    }

    method PoolReset(pool: nat)
      requires Valid()
      modifies this
      ensures Valid() && direct == Forwarded(old(direct), ResetPool(pool), table)
    {
      hide *;
      KeysAgree();
      var rest := bufs.Keys;
      ghost var was := direct;
      ResetSoEnds(was, pool);
      while rest != {}
        invariant Valid() && rest <= bufs.Keys == was.lists.Keys
        invariant direct == ResetSo(was, pool, rest)
        decreases |rest|
      {
        var w :| w in rest;
        ResetSoStep(was, pool, rest, w);
        ResetIfIn(w, pool);
        rest := rest - {w};
      }
      SameForwarded(was, ResetPool(pool), table);
    }

    method DropIfIn(w: nat, pool: nat)
      requires Valid() && w in bufs && w in direct.pools
      modifies this
      ensures Valid() && old(bufs).Keys - {w} <= bufs.Keys
      ensures direct == if old(direct.pools)[w] == pool
                        then old(direct).(pools := old(direct.pools) - {w}, lists := old(direct.lists) - {w})
                        else old(direct)
    {
      hide Valid;
      PoolsStay(w);
      if bufs[w].pool == pool {
        Drop(w);
      }
    }

    method PoolDestroy(pool: nat)
      requires Valid()
      modifies this
      ensures Valid() && direct == Forwarded(old(direct), DestroyPool(pool), table)
    {
      hide *;
      KeysAgree();
      var rest := bufs.Keys;
      ghost var was := direct;
      DestroyedSoEnds(was, pool);
      while rest != {}
        invariant Valid() && rest <= bufs.Keys && rest <= was.lists.Keys
        invariant direct == DestroyedSo(was, pool, rest)
        decreases |rest|
      {
        var w :| w in rest;
        DestroyedSoStep(was, pool, rest, w);
        DropIfIn(w, pool);
        rest := rest - {w};
      }
      SameForwarded(was, DestroyPool(pool), table);
    }

    method FreeBuffer(w: nat)
      requires Valid() && w in bufs
      modifies this
      ensures Valid() && direct == Forwarded(old(direct), Free(w), table)
    {
      hide Valid;
      Drop(w);
    }

    method Perform(e: Event)
      requires Valid() && Allowed(direct, e, table)
      modifies this
      ensures Valid() && direct == Forwarded(old(direct), e, table)
    {
      hide Valid;
      KeysAgree();
      match e {
        case Allocate(w, pool) => AllocateBuffer(w, pool);
        case Begin(w, batches) => StartOver(w, AtBegin(batches));
        case End(w) => EndBuffer(w);
        case Reset(w) => StartOver(w, Discard);
        case Batchable(id, args, room) => RecordCommand(id, args, room);
        case Unbatched(w, call) => Send(w, call);
        case ResetPool(pool) => PoolReset(pool);
        case DestroyPool(pool) => PoolDestroy(pool);
        case Free(w) => FreeBuffer(w);
        case Store(now) => StoreMemory(now);
      }
    }

    /**
     * After any calls at all, each live command buffer's sent and unsent commands are those of sending
     * each at once.
     */
    method Run(es: seq<Event>)
      requires Valid() && AllAllowed(direct, es, table)
      modifies this
      ensures Valid() && direct == ForwardedAll(old(direct), es, table)
      ensures bufs.Keys == direct.lists.Keys == host.Keys == unsent.Keys
      ensures forall w :: w in bufs ==>
                AllLegal(unsent[w], w, table) && host[w] + Meant(unsent[w], table) == direct.lists[w]
    {
      KeysAgree();
      for i := 0 to |es|
        invariant Valid() && direct.lists.Keys == direct.pools.Keys && AllAllowed(direct, es[i..], table)
        invariant ForwardedAll(direct, es[i..], table) == ForwardedAll(old(direct), es, table)
      {
        assert es[i..][0] == es[i] && es[i..][1..] == es[i + 1..];
        Perform(es[i]);
      }
      KeysAgree();
      forall w | w in bufs
        ensures AllLegal(unsent[w], w, table) && host[w] + Meant(unsent[w], table) == direct.lists[w]
      {
        Apart(w);
      }
    }

    /** Only a batchable command's meaning depends on the table. */
    static lemma SameForwarded(s: Recorded, e: Event, table: Commands)
      requires s.lists.Keys == s.pools.Keys && !e.Batchable?
      ensures Forwarded(s, e, table) == Forwarded(s, e, map[])
    {
    }
  }
}
