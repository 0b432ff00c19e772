/**
 packages/ti/sysbios/heaps/HeapBuf.c: a pool of equal blocks cut from one buffer, kept on a FIFO free list.
 */
module HeapBuf {
  import opened Base
  import opened Arithmetic

  /** A HeapBuf object. Its free list holds the addresses of the free blocks. */
  datatype Pool = Pool(buf: int, blockSize: int, align: int, numBlocks: nat, free: seq<int>, numFreeBlocks: int, minFreeBlocks: int)

  function BlockAt(p: Pool, k: int): int {
    p.buf + k * p.blockSize
  }

  /** Address a is where one of the pool's blocks begins. */
  ghost predicate IsBlock(p: Pool, a: int) {
    exists k :: 0 <= k < p.numBlocks && a == BlockAt(p, k)
  }

  /** HeapBuf_getEndAddr: the last address of the pool. */
  function EndAddr(p: Pool): int {
    BlockAt(p, p.numBlocks) - 1
  }

  /** HeapBuf_alloc; `track` is HeapBuf_trackMaxAllocs. */
  function AllocFrom(p: Pool, size: int, track: bool): (Pool, Option<int>) {
    if size > p.blockSize || p.free == [] then (p, None)
    else
      var n := p.numFreeBlocks - 1;
      (p.(free := p.free[1..], numFreeBlocks := n, minFreeBlocks := if track && n < p.minFreeBlocks then n else p.minFreeBlocks),
       Some(p.free[0]))
  }

  /** HeapBuf_free. */
  function FreeTo(p: Pool, a: int): Pool {
    p.(free := p.free + [a], numFreeBlocks := p.numFreeBlocks + 1)
  }

  ghost predicate Shape(p: Pool) {
    0 < p.blockSize && 0 < p.align && 0 < p.numBlocks && p.buf % p.align == 0 && p.blockSize % p.align == 0
  }

  ghost predicate Valid(p: Pool) {
    && Shape(p) && Distinct(p.free) && p.numFreeBlocks == |p.free|
    && forall i :: 0 <= i < |p.free| ==> IsBlock(p, p.free[i])
  }

  /** The same pool, whatever is free in it. */
  ghost predicate SamePool(p: Pool, q: Pool) {
    q.buf == p.buf && q.blockSize == p.blockSize && q.align == p.align && q.numBlocks == p.numBlocks
  }

  lemma SameBlocks(p: Pool, q: Pool, a: int)
    requires SamePool(p, q)
    ensures IsBlock(p, a) <==> IsBlock(q, a)
    ensures EndAddr(p) == EndAddr(q)
  {
    if IsBlock(p, a) {
      var k :| 0 <= k < p.numBlocks && a == BlockAt(p, k);
      assert a == BlockAt(q, k);
    }
    if IsBlock(q, a) {
      var k :| 0 <= k < q.numBlocks && a == BlockAt(q, k);
      assert a == BlockAt(p, k);
    }
  }

  /** A block lies inside the pool, aligned, and different blocks do not overlap. */
  lemma BlockFacts(p: Pool, j: int, k: int)
    requires Shape(p) && 0 <= j < p.numBlocks && 0 <= k < p.numBlocks
    ensures p.buf <= BlockAt(p, k) && BlockAt(p, k) + p.blockSize - 1 <= EndAddr(p)
    ensures j < k ==> BlockAt(p, j) + p.blockSize <= BlockAt(p, k)
    ensures BlockAt(p, k) % p.align == 0
  {
    Scale(0, k, p.blockSize);
    Scale(k + 1, p.numBlocks, p.blockSize);
    Distribute(k, 1, p.blockSize);
    Scale(j + 1, k, p.blockSize);
    Distribute(j, 1, p.blockSize);
    MultiplesAdd(p.buf, p.blockSize, k, p.align);
  }

  lemma MultiplesAdd(x: int, y: int, k: int, a: int)
    requires a > 0 && x % a == 0 && y % a == 0
    ensures (x + k * y) % a == 0
  {
    DivFacts(x, a);
    DivFacts(y, a);
    var p, q := x / a, y / a;
    assert k * y == (k * q) * a by {
      Associate(k, q, a);
    }
    Distribute(p, k * q, a);
    DivUnique(x + k * y, a, p + k * q, 0);
  }

  lemma BlockInside(p: Pool, a: int)
    requires Shape(p) && IsBlock(p, a)
    ensures p.buf <= a && a + p.blockSize - 1 <= EndAddr(p) && a % p.align == 0
  {
    var k :| 0 <= k < p.numBlocks && a == BlockAt(p, k);
    BlockFacts(p, k, k);
  }

  lemma AllocValid(p: Pool, size: int, track: bool)
    requires Valid(p)
    ensures var r := AllocFrom(p, size, track);
            && Valid(r.0) && SamePool(p, r.0)
            && (r.1.None? <==> size > p.blockSize || p.free == [])
            && (r.1.Some? ==> r.1.value in p.free && IsBlock(p, r.1.value) && forall a :: a in r.0.free <==> a in p.free && a != r.1.value)
  {
    var q := AllocFrom(p, size, track).0;
    if p.free != [] {
      PopMembers(p.free);
      forall i | 0 <= i < |q.free| ensures IsBlock(q, q.free[i]) {
        if size <= p.blockSize {
          assert q.free[i] == p.free[i + 1];
        }
        SameBlocks(p, q, q.free[i]);
      }
    }
  }

  /** The assertions of HeapBuf_free hold for a block of the pool that is not free; there is always room to count it. */
  lemma FreeValid(p: Pool, a: int)
    requires Valid(p) && IsBlock(p, a) && a !in p.free
    ensures Valid(FreeTo(p, a)) && SamePool(p, FreeTo(p, a))
    ensures p.numFreeBlocks < p.numBlocks
    ensures p.buf <= a && a + p.blockSize <= p.buf + p.numBlocks * p.blockSize && (a - p.buf) % p.blockSize == 0
  {
    AppendDistinct(p.free, a);
    var q := FreeTo(p, a);
    forall i | 0 <= i < |q.free| ensures IsBlock(q, q.free[i]) {
      SameBlocks(p, q, q.free[i]);
    }
    BlockInside(p, a);
    var k :| 0 <= k < p.numBlocks && a == BlockAt(p, k);
    DivUnique(a - p.buf, p.blockSize, k, 0);
    Pigeonhole(q);
  }

  /** Distinct blocks are no more than numBlocks. */
  lemma Pigeonhole(p: Pool)
    requires Shape(p) && Distinct(p.free) && forall i :: 0 <= i < |p.free| ==> IsBlock(p, p.free[i])
    ensures |p.free| <= p.numBlocks
  {
    var all := Addresses(p, p.numBlocks);
    AddressesAre(p, p.numBlocks);
    forall a | a in p.free ensures a in all {
      var k :| 0 <= k < p.numBlocks && a == BlockAt(p, k);
    }
    DistinctInside(p.free, all);
  }

  /** The addresses of the first n blocks. */
  ghost function Addresses(p: Pool, n: nat): set<int> {
    if n == 0 then {} else Addresses(p, n - 1) + {BlockAt(p, n - 1)}
  }

  lemma {:induction false} AddressesAre(p: Pool, n: nat)
    ensures |Addresses(p, n)| <= n
    ensures forall k :: 0 <= k < n ==> BlockAt(p, k) in Addresses(p, n)
  {
    if n > 0 {
      AddressesAre(p, n - 1);
    }
  }

  /** A block freed right after it was allocated is free again, and so is everything that was before. */
  lemma FreeUndoesAlloc(p: Pool, size: int, track: bool)
    requires Valid(p) && AllocFrom(p, size, track).1.Some?
    ensures var r := AllocFrom(p, size, track);
            var q := FreeTo(r.0, r.1.value);
            Valid(q) && q.numFreeBlocks == p.numFreeBlocks && multiset(q.free) == multiset(p.free)
  {
    var r := AllocFrom(p, size, track);
    AllocValid(p, size, track);
    SameBlocks(p, r.0, r.1.value);
    FreeValid(r.0, r.1.value);
    assert p.free == [p.free[0]] + p.free[1..];
  }

  // ---------------------------------------------------------------- runs

  datatype Event = EAlloc(size: int, track: bool) | EFree(block: int)

  ghost predicate Next(p: Pool, e: Event, p': Pool) {
    match e
    case EAlloc(size, track) => p' == AllocFrom(p, size, track).0
    case EFree(block) => IsBlock(p, block) && block !in p.free && p' == FreeTo(p, block)
  }

  ghost predicate Run(states: seq<Pool>, events: seq<Event>) {
    |states| == |events| + 1 && forall i :: 0 <= i < |events| ==> Next(states[i], events[i], states[i + 1])
  }

  /** The blocks handed out in the first k steps, in order. */
  ghost function HandedOut(states: seq<Pool>, events: seq<Event>, k: nat): seq<int>
    requires |states| == |events| + 1 && k <= |events|
  {
    if k == 0 then [] else HandedOut(states, events, k - 1) + Answer(states[k - 1], events[k - 1])
  }

  ghost function Answer(p: Pool, e: Event): seq<int> {
    if e.EFree? then [] else
      var r := AllocFrom(p, e.size, e.track).1;
      if r.Some? then [r.value] else []
  }

  ghost function GivenBack(events: seq<Event>, k: nat): seq<int>
    requires k <= |events|
  {
    if k == 0 then [] else GivenBack(events, k - 1) + (if events[k - 1].EFree? then [events[k - 1].block] else [])
  }

  /** Blocks are handed out in the order they became free: first those free at the start, then those given back. */
  lemma {:induction false} FirstFreedFirstUsed(states: seq<Pool>, events: seq<Event>, k: nat)
    requires Run(states, events) && k <= |events|
    ensures states[0].free + GivenBack(events, k) == HandedOut(states, events, k) + states[k].free
    decreases k
  {
    if k > 0 {
      var i := k - 1;
      FirstFreedFirstUsed(states, events, i);
      assert Next(states[i], events[i], states[k]);
      var back, out := GivenBack(events, i), HandedOut(states, events, i);
      match events[i] {
        case EAlloc(size, track) =>
          assert states[i].free == Answer(states[i], events[i]) + states[k].free;
          Associates(out, Answer(states[i], events[i]), states[k].free);
        case EFree(block) =>
          Associates(states[0].free, back, [block]);
          Associates(out, states[i].free, [block]);
      }
    }
  }

  lemma Associates(a: seq<int>, b: seq<int>, c: seq<int>)
    ensures a + b + c == a + (b + c)
  {
  }

  /** With allocations tracked, minFreeBlocks is the least number of free blocks there has been after an allocation. */
  ghost predicate Lowest(states: seq<Pool>, events: seq<Event>, k: nat)
    requires Run(states, events) && k <= |events|
  {
    && (forall i :: 0 < i <= k && events[i - 1].EAlloc? && Answer(states[i - 1], events[i - 1]) != [] ==>
          states[k].minFreeBlocks <= states[i].numFreeBlocks)
    && (states[k].minFreeBlocks == states[0].minFreeBlocks ||
        exists i :: 0 < i <= k && states[k].minFreeBlocks == states[i].numFreeBlocks)
  }

  lemma {:induction false} LowestInRuns(states: seq<Pool>, events: seq<Event>, k: nat)
    requires Run(states, events) && k <= |events|
    requires forall i :: 0 <= i < |events| && events[i].EAlloc? ==> events[i].track
    ensures Lowest(states, events, k)
    decreases k
  {
    if k > 0 {
      LowestInRuns(states, events, k - 1);
      assert Next(states[k - 1], events[k - 1], states[k]);
    }
  }

  class HeapBufObject {
    var p: Pool

    /** HeapBuf_postInit: the buffer cut into blocks, all on the free list in address order. */
    constructor (buf: int, blockSize: int, align: int, numBlocks: nat)
      requires Shape(Pool(buf, blockSize, align, numBlocks, [], 0, 0))
      ensures Valid(p) && p.free == seq(numBlocks, i => buf + i * blockSize)
      ensures SamePool(p, Pool(buf, blockSize, align, numBlocks, [], 0, 0))
    {
      p := Pool(buf, blockSize, align, numBlocks, [], numBlocks, 0xFFFF_FFFF);
      new;
      var addr := buf;
      var i := 0;
      while i < numBlocks
        invariant 0 <= i <= numBlocks && addr == buf + i * blockSize
        invariant p == Pool(buf, blockSize, align, numBlocks, seq(i, j => buf + j * blockSize), numBlocks, 0xFFFF_FFFF)
      {
        p := p.(free := p.free + [addr]);
        addr := addr + blockSize;
        Distribute(i, 1, blockSize);
        i := i + 1;
      }
      AllBlocks(p);
    }

    method Alloc(size: int, track: bool) returns (r: Option<int>)
      requires Valid(p)
      modifies this
      ensures (p, r) == AllocFrom(old(p), size, track) && Valid(p)
    {
      AllocValid(p, size, track);
      if size > p.blockSize {
        return None;
      }
      if p.free == [] {
        return None;
      }
      r := Some(p.free[0]);
      p := p.(free := p.free[1..], numFreeBlocks := p.numFreeBlocks - 1);
      if track {
        if p.numFreeBlocks < p.minFreeBlocks {
          p := p.(minFreeBlocks := p.numFreeBlocks);
        }
      }
    }

    method Free(block: int)
      requires Valid(p) && IsBlock(p, block) && block !in p.free
      modifies this
      ensures p == FreeTo(old(p), block) && Valid(p)
    {
      FreeValid(p, block);
      assert p.buf <= block && block + p.blockSize <= p.buf + p.numBlocks * p.blockSize;
      assert (block - p.buf) % p.blockSize == 0;
      assert p.numFreeBlocks < p.numBlocks;
      p := p.(free := p.free + [block], numFreeBlocks := p.numFreeBlocks + 1);
    }
  }

  lemma AllBlocks(p: Pool)
    requires Shape(p) && p.free == seq(p.numBlocks, i => p.buf + i * p.blockSize) && p.numFreeBlocks == p.numBlocks
    ensures Valid(p)
  {
    forall i, j | 0 <= i < j < |p.free| ensures p.free[i] != p.free[j] {
      BlockFacts(p, i, j);
    }
    forall i | 0 <= i < |p.free| ensures IsBlock(p, p.free[i]) {
      assert p.free[i] == BlockAt(p, i);
    }
  }
}
