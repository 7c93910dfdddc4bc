/** Invalidating guest code by address range: the 64-bit clamp, and the coherence of translations that rests on it. */
module ShimRanges {
  import opened Wrappers
  import opened Bytes

  type uint64 = x: nat | x < TWO64

  const MAX64: uint64 := TWO64 - 1

  function Wrap(x: int): (r: uint64)
    ensures (x - r) % TWO64 == 0
  {
    x % TWO64
  }

  // ---------------------------------------------------------------- the clamp

  /** The bytes a caller means, cut off at the end of the address space. */
  predicate Requested(addr: uint64, len: uint64, x: uint64)
  {
    addr <= x < addr + len
  }

  /** The closed interval dynarmic makes of an address and a length; empty where its upper end wraps below. */
  predicate Interval(addr: uint64, len: uint64, x: uint64)
  {
    addr <= x <= Wrap(addr + len - 1)
  }

  /** The length passed on: room is the number of bytes above `addr`. */
  method Clamp(addr: uint64, len: uint64) returns (r: uint64)
    requires len > 0
    ensures r > 0 && addr + r <= TWO64
    ensures forall x: uint64 :: Interval(addr, r, x) <==> Requested(addr, len, x)
    ensures addr + len <= TWO64 ==> r == len
  {
    var room: uint64 := MAX64 - addr;
    r := len;
    if len - 1 > room {
      r := room + 1;
    }
  }

  /** Without it: right exactly when the range does not pass the end; a range that does is lost whole. */
  lemma UnclampedRight(addr: uint64, len: uint64)
    requires len > 0
    ensures (forall x: uint64 :: Interval(addr, len, x) <==> Requested(addr, len, x)) <==> addr + len <= TWO64
    ensures addr + len > TWO64 ==> forall x: uint64 :: !Interval(addr, len, x)
  {
    if addr + len > TWO64 {
      assert Wrap(addr + len - 1) == addr + len - 1 - TWO64;
      assert Requested(addr, len, addr);
    }
  }

  /** A length of 0, which the clamp's caller never lets through: nothing, except at 0, where it is everything. */
  lemma UnclampedZero(addr: uint64, x: uint64)
    ensures Interval(addr, 0, x) <==> addr == 0
  {
  }

  /**
   * The bound written as a length, 2^64 - addr: at address 0 it wraps to 0 and every request becomes the
   * whole space.
   */
  lemma LengthBoundWraps(addr: uint64, len: uint64)
    requires len > 0
    ensures var bound := Wrap(MAX64 - addr + 1);
            var clamped := if len > bound then bound else len;
            (forall x: uint64 :: Interval(addr, clamped, x) <==> Requested(addr, len, x)) <==> addr != 0
  {
    var bound := Wrap(MAX64 - addr + 1);
    if addr == 0 {
      assert bound == 0 && Interval(0, 0, MAX64) && !Requested(0, len, MAX64);
    } else {
      assert bound == TWO64 - addr;
    }
  }

  // ---------------------------------------------------------------- coherence

  /** A translation: where it starts and the guest bytes it was made from. */
  datatype Block = Block(start: uint64, bytes: seq<byte>)

  type Memory = uint64 -> byte

  predicate Within(start: nat, n: nat, x: uint64)
  {
    start <= x < start + n
  }

  /** A block holds at least one instruction, and no byte past the end of the space. */
  predicate InSpace(b: Block)
  {
    b.bytes != [] && b.start + |b.bytes| <= TWO64
  }

  /** Every address but the dirty ones reads as it did when the block was translated. */
  ghost predicate Fresh(b: Block, mem: Memory, dirty: set<uint64>)
  {
    forall x: uint64 :: Within(b.start, |b.bytes|, x) && x !in dirty ==> b.bytes[x - b.start] == mem(x)
  }

  datatype Event =
      Write(at: uint64, bytes: seq<byte>)
    | Translate(start: uint64, n: nat)
    | Evict(block: Block)
    | Invalidate(addr: uint64, len: uint64)

  predicate Possible(e: Event)
  {
    match e
    case Write(at, bytes) => at + |bytes| <= TWO64
    case Translate(start, n) => n > 0 && start + n <= TWO64
    case _ => true
  }

  /** The addresses written since an invalidation last asked for them. */
  function DirtyAfter(dirty: set<uint64>, e: Event): set<uint64>
  {
    match e
    case Write(at, bytes) => dirty + set x: uint64 | 0 <= x < TWO64 && Within(at, |bytes|, x)
    case Invalidate(addr, len) => set x | x in dirty && !Requested(addr, len, x)
    case _ => dirty
  }

  function DirtyAfterAll(dirty: set<uint64>, es: seq<Event>): set<uint64>
    decreases |es|
  {
    if es == [] then dirty else DirtyAfterAll(DirtyAfter(dirty, es[0]), es[1..])
  }

  function Written(mem: Memory, at: uint64, bytes: seq<byte>): Memory
  {
    (x: uint64) => if Within(at, |bytes|, x) then bytes[x - at] else mem(x)
  }

  /** The bytes of memory from `start` on, as a translation keeps them. */
  function Read(mem: Memory, start: uint64, n: nat): (b: Block)
    requires start + n <= TWO64
    ensures b.start == start && |b.bytes| == n && Fresh(b, mem, {})
  {
    Block(start, seq(n, i requires 0 <= i < n => mem(start + i)))
  }

  /** The block holds a byte that is asked for. */
  ghost predicate Touched(b: Block, addr: uint64, len: uint64)
  {
    exists x: uint64 :: Requested(addr, len, x) && Within(b.start, |b.bytes|, x)
  }

  /** The test by bounds that dynarmic's intervals come to. */
  predicate Meets(b: Block, addr: uint64, len: uint64)
  {
    b.start < addr + len && addr < b.start + |b.bytes|
  }

  lemma MeetsExactly(b: Block, addr: uint64, len: uint64)
    requires InSpace(b) && len > 0
    ensures Meets(b, addr, len) <==> Touched(b, addr, len)
  {
    if Meets(b, addr, len) {
      var x: uint64 := if addr <= b.start then b.start else addr;
      assert Requested(addr, len, x) && Within(b.start, |b.bytes|, x);
    }
  }

  function MemAfter(mem: Memory, e: Event): Memory
  {
    match e
    case Write(at, bytes) => Written(mem, at, bytes)
    case _ => mem
  }

  function MemAfterAll(mem: Memory, es: seq<Event>): Memory
    decreases |es|
  {
    if es == [] then mem else MemAfterAll(MemAfter(mem, es[0]), es[1..])
  }

  ghost function BlocksAfter(mem: Memory, blocks: set<Block>, e: Event): set<Block>
    requires Possible(e)
  {
    match e
    case Write(_, _) => blocks
    case Translate(start, n) => blocks + {Read(mem, start, n)}
    case Evict(b) => blocks - {b}
    case Invalidate(addr, len) => set b | b in blocks && !Touched(b, addr, len)
  }

  ghost function BlocksAfterAll(mem: Memory, blocks: set<Block>, es: seq<Event>): set<Block>
    requires AllPossible(es)
    decreases |es|
  {
    if es == [] then blocks
    else
      assert AllPossible(es[1..]);
      BlocksAfterAll(MemAfter(mem, es[0]), BlocksAfter(mem, blocks, es[0]), es[1..])
  }

  ghost predicate AllPossible(es: seq<Event>)
  {
    forall i :: 0 <= i < |es| ==> Possible(es[i])
  }

  ghost predicate AllFresh(blocks: set<Block>, mem: Memory, dirty: set<uint64>)
  {
    forall b :: b in blocks ==> InSpace(b) && Fresh(b, mem, dirty)
  }

  /** Every event keeps each block equal to memory but for what is dirty. */
  lemma StepFresh(blocks: set<Block>, mem: Memory, dirty: set<uint64>, e: Event)
    requires AllFresh(blocks, mem, dirty) && Possible(e)
    ensures AllFresh(BlocksAfter(mem, blocks, e), MemAfter(mem, e), DirtyAfter(dirty, e))
  {
    forall b | b in BlocksAfter(mem, blocks, e)
      ensures InSpace(b) && Fresh(b, MemAfter(mem, e), DirtyAfter(dirty, e))
    {
      if e.Translate? && b !in blocks {
        assert Fresh(b, mem, {});
      } else if e.Invalidate? {
        assert !Touched(b, e.addr, e.len);
      }
    }
  }

  lemma {:induction false} AllStepsFresh(blocks: set<Block>, mem: Memory, dirty: set<uint64>, es: seq<Event>)
    requires AllFresh(blocks, mem, dirty) && AllPossible(es)
    ensures AllFresh(BlocksAfterAll(mem, blocks, es), MemAfterAll(mem, es), DirtyAfterAll(dirty, es))
    decreases |es|
  {
    hide AllFresh, Possible, BlocksAfter, MemAfter, DirtyAfter;
    if es != [] {
      assert AllPossible(es[1..]);
      StepFresh(blocks, mem, dirty, es[0]);
      AllStepsFresh(BlocksAfter(mem, blocks, es[0]), MemAfter(mem, es[0]), DirtyAfter(dirty, es[0]), es[1..]);
    }
  }

  class Translations {
    var mem: Memory
    var blocks: set<Block>
    ghost var dirty: set<uint64>

    ghost predicate Valid()
      reads this
    {
      AllFresh(blocks, mem, dirty)
    }

    constructor (mem: Memory)
      ensures Valid() && this.mem == mem && blocks == {} && dirty == {}
    {
      this.mem, blocks, dirty := mem, {}, {};
    }

    /** dynarmic's part: every block that meets the closed interval goes. */
    method InvalidateCacheRange(addr: uint64, len: uint64)
      modifies this`blocks
      ensures blocks == set b | b in old(blocks) && !(b.start <= Wrap(addr + len - 1) && addr < b.start + |b.bytes|)
    {
      blocks := set b | b in blocks && !(b.start <= Wrap(addr + len - 1) && addr < b.start + |b.bytes|);
    }

    /** Both entry points: exactly the blocks that hold a requested byte go; nothing asked for is nothing done. */
    method InvalidateRange(addr: uint64, len: uint64)
      requires Valid()
      modifies this
      ensures Valid() && mem == old(mem)
      ensures dirty == DirtyAfter(old(dirty), Invalidate(addr, len))
      ensures blocks == set b | b in old(blocks) && !Touched(b, addr, len)
    {
      StepFresh(blocks, mem, dirty, Invalidate(addr, len));
      dirty := DirtyAfter(dirty, Invalidate(addr, len));
      if len == 0 {
        assert forall b :: b in blocks ==> !Touched(b, addr, len);
        return;
      }
      var clamped := Clamp(addr, len);
      forall b | b in blocks
        ensures b.start <= Wrap(addr + clamped - 1) && addr < b.start + |b.bytes| <==> Touched(b, addr, len)
      {
        assert InSpace(b);
        assert b.start >= addr ==> (Interval(addr, clamped, b.start) <==> Requested(addr, len, b.start));
        assert Interval(addr, clamped, addr);
        MeetsExactly(b, addr, len);
      }
      InvalidateCacheRange(addr, clamped);
    }

    method WriteCode(at: uint64, bytes: seq<byte>)
      requires Valid() && at + |bytes| <= TWO64
      modifies this
      ensures Valid() && mem == Written(old(mem), at, bytes) && blocks == old(blocks)
      ensures dirty == DirtyAfter(old(dirty), Write(at, bytes))
    {
      StepFresh(blocks, mem, dirty, Write(at, bytes));
      mem := Written(mem, at, bytes);
      dirty := DirtyAfter(dirty, Write(at, bytes));
    }

    method TranslateBlock(start: uint64, n: nat)
      requires Valid() && n > 0 && start + n <= TWO64
      modifies this`blocks
      ensures Valid() && blocks == old(blocks) + {Read(mem, start, n)}
    {
      StepFresh(blocks, mem, dirty, Translate(start, n));
      blocks := blocks + {Read(mem, start, n)};
    }

    method Perform(e: Event)
      requires Valid() && Possible(e)
      modifies this
      ensures Valid() && dirty == DirtyAfter(old(dirty), e)
      ensures mem == MemAfter(old(mem), e) && blocks == BlocksAfter(old(mem), old(blocks), e)
    {
      hide AllFresh;
      match e {
        case Write(at, bytes) => WriteCode(at, bytes);
        case Translate(start, n) => TranslateBlock(start, n);
        case Evict(b) =>
          StepFresh(blocks, mem, dirty, e);
          blocks := blocks - {b};
        case Invalidate(addr, len) => InvalidateRange(addr, len);
      }
    }

    /** Any run: memory and the blocks are as the events say, and `CoveredWritesKeepBlocks` tells when they agree. */
    method Run(es: seq<Event>)
      requires Valid() && AllPossible(es)
      modifies this
      ensures Valid() && dirty == DirtyAfterAll(old(dirty), es)
      ensures mem == MemAfterAll(old(mem), es) && blocks == BlocksAfterAll(old(mem), old(blocks), es)
      ensures forall b, x: uint64 :: b in blocks && Within(b.start, |b.bytes|, x) && x !in dirty ==>
                b.bytes[x - b.start] == mem(x)
      ensures old(dirty) == {} && (forall k, x: uint64 :: !LeavesDirty(es, k, x)) ==> Coherent(blocks, mem)
    {
      hide Possible, MemAfter, BlocksAfter, DirtyAfter;
      ghost var m, bs, d := mem, blocks, dirty;
      assert es[0..] == es;
      for i := 0 to |es|
        invariant Valid() && DirtyAfterAll(dirty, es[i..]) == DirtyAfterAll(d, es)
        invariant MemAfterAll(mem, es[i..]) == MemAfterAll(m, es)
        invariant AllPossible(es[i..]) && BlocksAfterAll(mem, blocks, es[i..]) == BlocksAfterAll(m, bs, es)
      {
        assert es[i..][0] == es[i] && es[i..][1..] == es[i + 1..];
        assert AllPossible(es[i + 1..]);
        Perform(es[i]);
      }
      if d == {} && (forall k, x: uint64 :: !LeavesDirty(es, k, x)) {
        CoveredWritesLeaveNothing(es);
        FreshIsCoherent(blocks, mem);
      }
    }
  }

  // ---------------------------------------------------------------- writes followed by covering invalidations

  ghost predicate Asked(es: seq<Event>, from: nat, x: uint64)
  {
    exists j :: from <= j < |es| && es[j].Invalidate? && Requested(es[j].addr, es[j].len, x)
  }

  /** The k-th event writes `x` and no invalidation after it asks for it. */
  ghost predicate LeavesDirty(es: seq<Event>, k: nat, x: uint64)
  {
    k < |es| && es[k].Write? && Within(es[k].at, |es[k].bytes|, x) && !Asked(es, k + 1, x)
  }

  lemma AskedShift(es: seq<Event>, from: nat, x: uint64)
    requires es != []
    ensures Asked(es[1..], from, x) <==> Asked(es, from + 1, x)
  {
    if Asked(es[1..], from, x) {
      var j :| from <= j < |es[1..]| && es[1..][j].Invalidate? && Requested(es[1..][j].addr, es[1..][j].len, x);
      assert es[j + 1].Invalidate?;
    }
    if Asked(es, from + 1, x) {
      var j :| from + 1 <= j < |es| && es[j].Invalidate? && Requested(es[j].addr, es[j].len, x);
      assert es[1..][j - 1].Invalidate?;
    }
  }

  lemma LeavesShift(es: seq<Event>, k: nat, x: uint64)
    requires es != []
    ensures LeavesDirty(es[1..], k, x) <==> LeavesDirty(es, k + 1, x)
  {
    AskedShift(es, k + 1, x);
  }

  /** An address is dirty at the end exactly when it was dirty, or written, and never asked for after. */
  lemma {:induction false} DirtyExactly(dirty: set<uint64>, es: seq<Event>, x: uint64)
    ensures x in DirtyAfterAll(dirty, es) <==> (x in dirty && !Asked(es, 0, x)) || exists k :: LeavesDirty(es, k, x)
    decreases |es|
  {
    if es != [] {
      DirtyExactly(DirtyAfter(dirty, es[0]), es[1..], x);
      AskedShift(es, 0, x);
      assert Asked(es, 0, x) <==> Asked(es, 1, x) || (es[0].Invalidate? && Requested(es[0].addr, es[0].len, x));
      if k: nat :| LeavesDirty(es[1..], k, x) {
        LeavesShift(es, k, x);
      }
      if k: nat :| LeavesDirty(es, k, x) && k > 0 {
        LeavesShift(es, k - 1, x);
      }
      assert LeavesDirty(es, 0, x) <==> es[0].Write? && Within(es[0].at, |es[0].bytes|, x) && !Asked(es, 1, x);
    }
  }

  /** Every block is what memory holds there. */
  ghost predicate Coherent(blocks: set<Block>, mem: Memory)
  {
    forall b :: b in blocks ==> InSpace(b) && b == Read(mem, b.start, |b.bytes|)
  }

  lemma FreshIsCoherent(blocks: set<Block>, mem: Memory)
    requires AllFresh(blocks, mem, {})
    ensures Coherent(blocks, mem)
  {
    forall b | b in blocks
      ensures b == Read(mem, b.start, |b.bytes|)
    {
      assert InSpace(b) && Fresh(b, mem, {});
      forall i: nat | i < |b.bytes|
        ensures b.bytes[i] == Read(mem, b.start, |b.bytes|).bytes[i]
      {
        var x: uint64 := b.start + i;
        assert Within(b.start, |b.bytes|, x);
      }
    }
  }

  /**
   * When every write is followed by invalidations of each byte it wrote, nothing is left dirty.
   */
  lemma CoveredWritesLeaveNothing(es: seq<Event>)
    requires forall k, x: uint64 :: !LeavesDirty(es, k, x)
    ensures DirtyAfterAll({}, es) == {}
  {
    forall x: uint64
      ensures x !in DirtyAfterAll({}, es)
    {
      DirtyExactly({}, es, x);
    }
  }

  /** Then every translation that survives the run is of what guest memory holds at its end. */
  lemma CoveredWritesKeepBlocks(mem: Memory, es: seq<Event>)
    requires AllPossible(es) && forall k, x: uint64 :: !LeavesDirty(es, k, x)
    ensures Coherent(BlocksAfterAll(mem, {}, es), MemAfterAll(mem, es))
  {
    AllStepsFresh({}, mem, {}, es);
    CoveredWritesLeaveNothing(es);
    FreshIsCoherent(BlocksAfterAll(mem, {}, es), MemAfterAll(mem, es));
  }
}
