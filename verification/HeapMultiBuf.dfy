/**
 packages/ti/sysbios/heaps/HeapMultiBuf.c over the pools of HeapBuf: allocation by size and alignment with or without
 borrowing, and freeing by address. A HeapBuf handle is the index of its pool; qsort is known by its contract.
 */
module HeapMultiBuf {
  import opened Base
  import opened HeapBuf

  datatype AddrPair = AddrPair(lastAddr: int, heapBuf: nat)

  datatype Multi = Multi(pools: seq<Pool>, bufsBySize: seq<nat>, bufsByAddr: seq<AddrPair>, borrow: bool, track: bool)

  // ---------------------------------------------------------------- the orders

  /** A difference of two 32-bit unsigned numbers taken as an Int. */
  function IntDiff(a: int, b: int): int {
    var d := (a - b) % 0x1_0000_0000;
    if d >= 0x8000_0000 then d - 0x1_0000_0000 else d
  }

  /** HeapMultiBuf_addrPairCompare. */
  function AddrPairCompare(a: AddrPair, b: AddrPair): int {
    IntDiff(a.lastAddr, b.lastAddr)
  }

  /** HeapMultiBuf_sizeAlignCompare. */
  function SizeAlignCompare(a: Pool, b: Pool): int {
    var diff := IntDiff(a.blockSize, b.blockSize);
    if diff == 0 then IntDiff(a.align, b.align) else diff
  }

  /** The comparison of two addresses is right exactly if they are less than 2^31 apart (or exactly so, downwards). */
  lemma CompareRightIff(a: AddrPair, b: AddrPair)
    requires 0 <= a.lastAddr < 0x1_0000_0000 && 0 <= b.lastAddr < 0x1_0000_0000
    ensures (AddrPairCompare(a, b) <= 0 <==> a.lastAddr <= b.lastAddr) <==> -0x8000_0000 <= a.lastAddr - b.lastAddr < 0x8000_0000
  {
  }

  /** Smaller blocks first, and among equal sizes smaller alignments first. */
  predicate SizeAlignLeq(a: Pool, b: Pool) {
    a.blockSize < b.blockSize || (a.blockSize == b.blockSize && a.align <= b.align)
  }

  lemma SizeAlignRight(a: Pool, b: Pool)
    requires 0 < a.blockSize < 0x8000_0000 && 0 < b.blockSize < 0x8000_0000 && 0 < a.align < 0x8000_0000 && 0 < b.align < 0x8000_0000
    ensures SizeAlignCompare(a, b) <= 0 <==> SizeAlignLeq(a, b)
  {
  }

  // ---------------------------------------------------------------- allocation

  function PoolAt(m: Multi, i: nat): Pool
    requires i < |m.bufsBySize| && m.bufsBySize[i] < |m.pools|
  {
    m.pools[m.bufsBySize[i]]
  }

  /** A pool can serve the request. */
  predicate Fits(p: Pool, size: int, align: int) {
    size <= p.blockSize && p.align >= align
  }

  ghost predicate Handles(m: Multi) {
    forall i :: 0 <= i < |m.bufsBySize| ==> m.bufsBySize[i] < |m.pools|
  }

  function TakeAt(m: Multi, i: nat, size: int): (Multi, Option<int>)
    requires i < |m.bufsBySize| && m.bufsBySize[i] < |m.pools|
  {
    var r := AllocFrom(PoolAt(m, i), size, m.track);
    (m.(pools := m.pools[m.bufsBySize[i] := r.0]), r.1)
  }

  /** HeapMultiBuf_borrowBlock. */
  function Borrow(m: Multi, size: int, align: int, i: nat): (Multi, Option<int>)
    requires Handles(m)
    decreases |m.bufsBySize| - i
  {
    if i >= |m.bufsBySize| then (m, None)
    else if PoolAt(m, i).align >= align && TakeAt(m, i, size).1.Some? then TakeAt(m, i, size)
    else Borrow(m, size, align, i + 1)
  }

  /** The loop of HeapMultiBuf_alloc from index i on. */
  function AllocAt(m: Multi, size: int, align: int, i: nat): (Multi, Option<int>)
    requires Handles(m)
    decreases |m.bufsBySize| - i
  {
    if i >= |m.bufsBySize| then (m, None)
    else if !Fits(PoolAt(m, i), size, align) then AllocAt(m, size, align, i + 1)
    else
      var r := TakeAt(m, i, size);
      if r.1.Some? || i == |m.bufsBySize| - 1 then r
      else if m.borrow then Borrow(m, size, align, i + 1)
      else if SameClass(PoolAt(m, i + 1), PoolAt(m, i)) then AllocAt(m, size, align, i + 1)
      else r
  }

  predicate SameClass(p: Pool, q: Pool) {
    p.blockSize == q.blockSize && p.align == q.align
  }

  /** Sorted as qsort leaves bufsBySize. */
  ghost predicate BySize(m: Multi) {
    && Handles(m)
    && (forall i, j :: 0 <= i < j < |m.bufsBySize| ==> SizeAlignLeq(PoolAt(m, i), PoolAt(m, j)))
  }

  /** Every pool is in bufsBySize. */
  ghost predicate Complete(m: Multi) {
    forall h: nat :: h < |m.pools| ==> h in m.bufsBySize
  }

  /** Pool i fits and no pool before it does: the size and alignment class a request is served from. */
  ghost predicate FirstFit(m: Multi, size: int, align: int, i: nat)
    requires Handles(m)
  {
    i < |m.bufsBySize| && Fits(PoolAt(m, i), size, align) && forall j :: 0 <= j < i ==> !Fits(PoolAt(m, j), size, align)
  }

  /** The block came from pool i, which fits: the head of its free list. */
  ghost predicate From(m: Multi, m': Multi, size: int, align: int, a: int, i: nat)
    requires Handles(m)
  {
    && i < |m.bufsBySize| && Fits(PoolAt(m, i), size, align) && PoolAt(m, i).free != [] && a == PoolAt(m, i).free[0]
    && m' == m.(pools := m.pools[m.bufsBySize[i] := AllocFrom(PoolAt(m, i), size, m.track).0])
  }

  ghost predicate Served(m: Multi, m': Multi, size: int, align: int, a: int)
    requires Handles(m)
  {
    exists i :: From(m, m', size, align, a, i)
  }

  lemma TakeIs(m: Multi, i: nat, size: int, align: int)
    requires Handles(m) && i < |m.bufsBySize| && size <= PoolAt(m, i).blockSize
    ensures var r := TakeAt(m, i, size);
            if PoolAt(m, i).free == [] then r == (m, None)
            else r.1 == Some(PoolAt(m, i).free[0]) && (PoolAt(m, i).align >= align ==> From(m, r.0, size, align, r.1.value, i))
  {
    if PoolAt(m, i).free == [] {
      assert m.pools[m.bufsBySize[i] := PoolAt(m, i)] == m.pools;
    }
  }

  /** Borrowing finds a block exactly if some later pool with the alignment has one. */
  lemma {:induction false} BorrowServes(m: Multi, size: int, align: int, i: nat)
    requires Handles(m) && forall j :: i <= j < |m.bufsBySize| ==> size <= PoolAt(m, j).blockSize
    ensures var r := Borrow(m, size, align, i);
            && (r.1.None? <==> forall j :: i <= j < |m.bufsBySize| && Fits(PoolAt(m, j), size, align) ==> PoolAt(m, j).free == [])
            && (r.1.None? ==> r.0 == m)
            && (r.1.Some? ==> Served(m, r.0, size, align, r.1.value))
    decreases |m.bufsBySize| - i
  {
    if i < |m.bufsBySize| {
      TakeIs(m, i, size, align);
      if !(PoolAt(m, i).align >= align && TakeAt(m, i, size).1.Some?) {
        BorrowServes(m, size, align, i + 1);
      }
    }
  }

  /**
   Without borrowing: from the first pool that fits, the pools of the same size and alignment are tried, and no others.
   */
  lemma {:induction false} AllocOwnClass(m: Multi, size: int, align: int, i: nat, first: nat)
    requires BySize(m) && !m.borrow && FirstFit(m, size, align, first) && first <= i < |m.bufsBySize|
    requires SameClass(PoolAt(m, i), PoolAt(m, first))
    ensures var r := AllocAt(m, size, align, i);
            && (r.1.None? <==> forall j :: i <= j < |m.bufsBySize| && SameClass(PoolAt(m, j), PoolAt(m, first)) ==> PoolAt(m, j).free == [])
            && (r.1.None? ==> r.0 == m)
            && (r.1.Some? ==> Served(m, r.0, size, align, r.1.value))
    decreases |m.bufsBySize| - i
  {
    TakeIs(m, i, size, align);
    if PoolAt(m, i).free == [] && i + 1 < |m.bufsBySize| {
      if SameClass(PoolAt(m, i + 1), PoolAt(m, i)) {
        AllocOwnClass(m, size, align, i + 1, first);
      } else {
        forall j | i < j < |m.bufsBySize| ensures !SameClass(PoolAt(m, j), PoolAt(m, first)) {
          assert SizeAlignLeq(PoolAt(m, i), PoolAt(m, i + 1));
          assert j > i + 1 ==> SizeAlignLeq(PoolAt(m, i + 1), PoolAt(m, j));
        }
      }
    }
  }

  /** Pools that do not fit are passed over. */
  lemma {:induction false} AllocSkips(m: Multi, size: int, align: int, i: nat, first: nat)
    requires Handles(m) && i <= first <= |m.bufsBySize| && forall j :: i <= j < first ==> !Fits(PoolAt(m, j), size, align)
    ensures AllocAt(m, size, align, i) == AllocAt(m, size, align, first)
    decreases first - i
  {
    if i < first {
      AllocSkips(m, size, align, i + 1, first);
    }
  }

  /**
   HeapMultiBuf_alloc: a block comes from a pool with enough block size and alignment. With borrowing there is none
   exactly if every such pool is empty; without, exactly if every pool of the first fitting size and alignment is.
   */
  lemma AllocServes(m: Multi, size: int, align: int)
    requires BySize(m)
    ensures var r := AllocAt(m, size, align, 0);
            && (r.1.None? ==> r.0 == m)
            && (r.1.Some? ==> Served(m, r.0, size, align, r.1.value))
            && (m.borrow ==>
                  (r.1.None? <==> forall j :: 0 <= j < |m.bufsBySize| && Fits(PoolAt(m, j), size, align) ==> PoolAt(m, j).free == []))
            && (!m.borrow ==> (r.1.None? <==> forall first :: FirstFit(m, size, align, first) ==> ClassEmpty(m, first)))
  {
    var first := FindFirst(m, size, align, 0);
    AllocSkips(m, size, align, 0, first);
    if first < |m.bufsBySize| {
      assert FirstFit(m, size, align, first);
      if m.borrow {
        AllocBorrows(m, size, align, first);
      } else {
        AllocOwnClass(m, size, align, first, first);
        FirstUnique(m, size, align, first);
        forall j | 0 <= j < first ensures !SameClass(PoolAt(m, j), PoolAt(m, first)) {
        }
      }
    }
  }

  /** Every pool of the size and alignment of pool i is empty. */
  ghost predicate ClassEmpty(m: Multi, i: nat)
    requires Handles(m) && i < |m.bufsBySize|
  {
    forall j :: 0 <= j < |m.bufsBySize| && SameClass(PoolAt(m, j), PoolAt(m, i)) ==> PoolAt(m, j).free == []
  }

  /** With borrowing and every pool listed, NULL means that no pool at all can serve the request. */
  lemma BorrowingExhausts(m: Multi, size: int, align: int, h: nat)
    requires BySize(m) && Complete(m) && m.borrow && h < |m.pools| && Fits(m.pools[h], size, align)
    ensures AllocAt(m, size, align, 0).1.None? ==> m.pools[h].free == []
    ensures m.pools[h].free != [] ==> AllocAt(m, size, align, 0).1.Some?
  {
    AllocServes(m, size, align);
    assert h in m.bufsBySize;
    var i :| 0 <= i < |m.bufsBySize| && m.bufsBySize[i] == h;
    assert PoolAt(m, i) == m.pools[h];
  }

  lemma FirstUnique(m: Multi, size: int, align: int, first: nat)
    requires Handles(m) && FirstFit(m, size, align, first)
    ensures forall k :: FirstFit(m, size, align, k) ==> k == first
  {
  }

  /** With borrowing: the first fitting pool, and then every later one of the alignment, all of which are as large. */
  lemma AllocBorrows(m: Multi, size: int, align: int, first: nat)
    requires BySize(m) && m.borrow && FirstFit(m, size, align, first)
    ensures var r := AllocAt(m, size, align, first);
            && (r.1.None? <==> forall j :: 0 <= j < |m.bufsBySize| && Fits(PoolAt(m, j), size, align) ==> PoolAt(m, j).free == [])
            && (r.1.None? ==> r.0 == m)
            && (r.1.Some? ==> Served(m, r.0, size, align, r.1.value))
  {
    TakeIs(m, first, size, align);
    forall j | first < j < |m.bufsBySize| ensures size <= PoolAt(m, j).blockSize {
      assert SizeAlignLeq(PoolAt(m, first), PoolAt(m, j));
    }
    BorrowServes(m, size, align, first + 1);
  }

  ghost function FindFirst(m: Multi, size: int, align: int, i: nat): (r: nat)
    requires Handles(m) && i <= |m.bufsBySize|
    ensures i <= r <= |m.bufsBySize| && (forall j :: i <= j < r ==> !Fits(PoolAt(m, j), size, align))
    ensures r < |m.bufsBySize| ==> Fits(PoolAt(m, r), size, align)
    decreases |m.bufsBySize| - i
  {
    if i == |m.bufsBySize| || Fits(PoolAt(m, i), size, align) then i else FindFirst(m, size, align, i + 1)
  }

  // ---------------------------------------------------------------- freeing

  /** The loop of HeapMultiBuf_free from index i on: the first pool whose last address is not below the block. */
  function RouteFrom(m: Multi, block: int, i: nat): Option<nat>
    decreases |m.bufsByAddr| - i
  {
    if i >= |m.bufsByAddr| then None
    else if block <= m.bufsByAddr[i].lastAddr then Some(m.bufsByAddr[i].heapBuf)
    else RouteFrom(m, block, i + 1)
  }

  function FreeBlock(m: Multi, block: int): Multi {
    var h := RouteFrom(m, block, 0);
    if h.Some? && h.value < |m.pools| then m.(pools := m.pools[h.value := FreeTo(m.pools[h.value], block)]) else m
  }

  /** No two pools share an address. */
  ghost predicate Apart(m: Multi) {
    forall g, h :: 0 <= g < |m.pools| && 0 <= h < |m.pools| && g != h ==>
      EndAddr(m.pools[g]) < m.pools[h].buf || EndAddr(m.pools[h]) < m.pools[g].buf
  }

  /** bufsByAddr pairs every pool with its last address, in ascending order: what the comparison promises. */
  ghost predicate ByAddr(m: Multi) {
    && (forall i :: 0 <= i < |m.bufsByAddr| ==> m.bufsByAddr[i].heapBuf < |m.pools|
                                                && m.bufsByAddr[i].lastAddr == EndAddr(m.pools[m.bufsByAddr[i].heapBuf]))
    && (forall h :: 0 <= h < |m.pools| ==> Paired(m, h))
    && Ascending(m)
  }

  ghost predicate Ascending(m: Multi) {
    forall i, j :: 0 <= i < j < |m.bufsByAddr| ==> m.bufsByAddr[i].lastAddr <= m.bufsByAddr[j].lastAddr
  }

  ghost predicate Paired(m: Multi, h: nat) {
    exists i :: 0 <= i < |m.bufsByAddr| && m.bufsByAddr[i].heapBuf == h
  }

  /** Block a belongs to pool h and is not free. */
  ghost predicate Out(m: Multi, h: nat, a: int) {
    h < |m.pools| && IsBlock(m.pools[h], a) && a !in m.pools[h].free
  }

  /** The live addresses are exactly the blocks that are not free. */
  ghost predicate Books(m: Multi, live: set<int>) {
    && (forall h :: 0 <= h < |m.pools| ==> Valid(m.pools[h]))
    && (forall h, a :: 0 <= h < |m.pools| && IsBlock(m.pools[h], a) ==> (a in live <==> a !in m.pools[h].free))
    && (forall a :: a in live ==> exists h: nat :: Out(m, h, a))
  }

  ghost predicate Good(m: Multi, live: set<int>) {
    BySize(m) && ByAddr(m) && Apart(m) && Books(m, live)
  }

  /** The search ends at the pool the address lies in. */
  lemma {:induction false} RouteOwner(m: Multi, h: nat, block: int, i: nat)
    requires ByAddr(m) && Apart(m) && h < |m.pools| && m.pools[h].buf <= block <= EndAddr(m.pools[h])
    requires (forall g :: 0 <= g < |m.pools| ==> m.pools[g].buf <= EndAddr(m.pools[g]))
    requires forall j :: 0 <= j < i && j < |m.bufsByAddr| ==> m.bufsByAddr[j].lastAddr < block
    ensures RouteFrom(m, block, i) == Some(h)
    decreases |m.bufsByAddr| - i
  {
    assert Paired(m, h);
    var k :| 0 <= k < |m.bufsByAddr| && m.bufsByAddr[k].heapBuf == h;
    assert i <= k;
    if block <= m.bufsByAddr[i].lastAddr {
      var g := m.bufsByAddr[i].heapBuf;
      assert m.bufsByAddr[i].lastAddr == EndAddr(m.pools[g]);
      assert i < k ==> m.bufsByAddr[i].lastAddr <= m.bufsByAddr[k].lastAddr;
    } else {
      RouteOwner(m, h, block, i + 1);
    }
  }

  lemma PoolsNotEmpty(m: Multi)
    requires forall h :: 0 <= h < |m.pools| ==> Valid(m.pools[h])
    ensures forall g :: 0 <= g < |m.pools| ==> m.pools[g].buf <= EndAddr(m.pools[g])
  {
    forall g | 0 <= g < |m.pools| ensures m.pools[g].buf <= EndAddr(m.pools[g]) {
      BlockFacts(m.pools[g], 0, 0);
    }
  }

  /** A block is a block of one pool only. */
  lemma OneOwner(m: Multi, g: nat, h: nat, a: int)
    requires Apart(m) && g < |m.pools| && h < |m.pools| && Valid(m.pools[g]) && Valid(m.pools[h])
    requires IsBlock(m.pools[g], a) && IsBlock(m.pools[h], a)
    ensures g == h
  {
    BlockInside(m.pools[g], a);
    BlockInside(m.pools[h], a);
  }

  /** Replacing a pool by the same pool with other blocks free keeps the two sorted arrays right. */
  lemma SwapKeeps(m: Multi, h: nat, q: Pool)
    requires BySize(m) && ByAddr(m) && Apart(m) && h < |m.pools| && SamePool(m.pools[h], q)
    ensures var r := m.(pools := m.pools[h := q]); BySize(r) && ByAddr(r) && Apart(r)
  {
    var r := m.(pools := m.pools[h := q]);
    SameBlocks(m.pools[h], q, 0);
    forall g ensures 0 <= g < |m.pools| ==> EndAddr(r.pools[g]) == EndAddr(m.pools[g]) && r.pools[g].buf == m.pools[g].buf {
    }
    forall i, j | 0 <= i < j < |r.bufsBySize| ensures SizeAlignLeq(PoolAt(r, i), PoolAt(r, j)) {
      assert SizeAlignLeq(PoolAt(m, i), PoolAt(m, j));
    }
    forall g | 0 <= g < |r.pools| ensures Paired(r, g) {
      assert Paired(m, g);
    }
  }

  /** A live block, borrowed or not, is routed to the pool it came from. */
  lemma FreeRoutes(m: Multi, live: set<int>, block: int) returns (h: nat)
    requires Good(m, live) && block in live
    ensures Out(m, h, block) && RouteFrom(m, block, 0) == Some(h)
    ensures FreeBlock(m, block) == m.(pools := m.pools[h := FreeTo(m.pools[h], block)])
  {
    h :| Out(m, h, block);
    PoolsNotEmpty(m);
    BlockInside(m.pools[h], block);
    hide BySize, IsBlock;
    RouteOwner(m, h, block, 0);
  }

  /** Freeing it is correct: it is free in its own pool, it is not live any more, and nothing else changes. */
  lemma FreeGood(m: Multi, live: set<int>, block: int)
    requires Good(m, live) && block in live
    ensures Good(FreeBlock(m, block), live - {block})
  {
    var h := FreeRoutes(m, live, block);
    hide BySize, ByAddr, Apart, IsBlock, FreeBlock, RouteFrom, Shape;
    FreeValid(m.pools[h], block);
    var q := FreeTo(m.pools[h], block);
    SwapKeeps(m, h, q);
    SwapBooks(m, h, q, live, live - {block}, block);
  }

  /** The books after block a of pool h changed hands: q is the pool after, live' the live blocks after. */
  lemma SwapBooks(m: Multi, h: nat, q: Pool, live: set<int>, live': set<int>, a: int)
    requires Apart(m) && Books(m, live) && h < |m.pools| && IsBlock(m.pools[h], a)
    requires SamePool(m.pools[h], q) && Valid(q)
    requires forall b :: b != a ==> (b in q.free <==> b in m.pools[h].free) && (b in live' <==> b in live)
    requires a in live' <==> a !in q.free
    ensures Books(m.(pools := m.pools[h := q]), live')
  {
    hide IsBlock, Valid, Apart;
    var r := m.(pools := m.pools[h := q]);
    forall g, b | 0 <= g < |r.pools| && IsBlock(r.pools[g], b) ensures b in live' <==> b !in r.pools[g].free {
      if g == h {
        SameBlocks(m.pools[h], q, b);
      } else if b == a {
        OneOwner(m, g, h, a);
      }
    }
    forall b | b in live' ensures exists g: nat :: Out(r, g, b) {
      if b == a {
        SameBlocks(m.pools[h], q, a);
        assert Out(r, h, a);
      } else {
        var g: nat :| Out(m, g, b);
        SameBlocks(m.pools[h], q, b);
        assert Out(r, g, b);
      }
    }
  }

  /** What alloc hands out was not live, lies in a pool that fits, and becomes live. */
  lemma AllocGood(m: Multi, live: set<int>, size: int, align: int)
    requires Good(m, live)
    ensures var r := AllocAt(m, size, align, 0);
            && (r.1.None? ==> r.0 == m)
            && (r.1.Some? ==> r.1.value !in live && Good(r.0, live + {r.1.value}))
  {
    AllocServes(m, size, align);
    var r := AllocAt(m, size, align, 0);
    if r.1.Some? {
      var a := r.1.value;
      var i :| From(m, r.0, size, align, a, i);
      TakenGood(m, r.0, live, size, align, a, i);
    }
  }

  lemma TakenGood(m: Multi, m': Multi, live: set<int>, size: int, align: int, a: int, i: nat)
    requires Good(m, live) && From(m, m', size, align, a, i)
    ensures a !in live && Good(m', live + {a})
  {
    var h := m.bufsBySize[i];
    var p := m.pools[h];
    hide BySize, ByAddr, Apart, IsBlock, Shape;
    AllocValid(p, size, m.track);
    var q := AllocFrom(p, size, m.track).0;
    SwapKeeps(m, h, q);
    SwapBooks(m, h, q, live, live + {a}, a);
  }

  // ---------------------------------------------------------------- the functions

  class HeapMultiBufObject {
    var m: Multi

    constructor (m: Multi)
      ensures this.m == m
    {
      this.m := m;
    }

    /** HeapBuf_alloc of the pool behind a handle. */
    method PoolAlloc(i: nat, size: int) returns (block: Option<int>)
      requires Handles(m) && i < |m.bufsBySize|
      modifies this
      ensures (m, block) == TakeAt(old(m), i, size)
    {
      var r := AllocFrom(PoolAt(m, i), size, m.track);
      m := m.(pools := m.pools[m.bufsBySize[i] := r.0]);
      block := r.1;
    }

    /** HeapMultiBuf_borrowBlock. */
    method BorrowBlock(size: int, align: int, startIndex: nat) returns (block: Option<int>)
      requires Handles(m) && forall j :: startIndex <= j < |m.bufsBySize| ==> size <= PoolAt(m, j).blockSize
      modifies this
      ensures (m, block) == Borrow(old(m), size, align, startIndex)
    {
      ghost var all := Borrow(m, size, align, startIndex);
      var i := startIndex;
      while i < |m.bufsBySize|
        invariant startIndex <= i && m == old(m) && Borrow(m, size, align, i) == all
        decreases |m.bufsBySize| - i
      {
        if PoolAt(m, i).align >= align {
          TakeIs(m, i, size, align);
          block := PoolAlloc(i, size);
          if block.Some? {
            return block;
          }
        }
        i := i + 1;
      }
      return None;
    }

    /** HeapMultiBuf_alloc. */
    method Alloc(size: int, align: int) returns (block: Option<int>)
      requires BySize(m)
      modifies this
      ensures (m, block) == AllocAt(old(m), size, align, 0)
    {
      ghost var all := AllocAt(m, size, align, 0);
      var i := 0;
      while i < |m.bufsBySize|
        invariant 0 <= i && m == old(m) && AllocAt(m, size, align, i) == all
        decreases |m.bufsBySize| - i
      {
        var p := PoolAt(m, i);
        if size <= p.blockSize && p.align >= align {
          TakeIs(m, i, size, align);
          block := PoolAlloc(i, size);
          if block.None? && i != |m.bufsBySize| - 1 {
            if m.borrow {
              LaterLarger(m, size, i);
              block := BorrowBlock(size, align, i + 1);
              return block;
            } else if !SameClass(PoolAt(m, i + 1), p) {
              return block;
            }
          } else {
            return block;
          }
        }
        i := i + 1;
      }
      return None;
    }

    /** HeapMultiBuf_free; false is the failed assertion at its end. */
    method Free(block: int) returns (freed: bool)
      requires forall i :: 0 <= i < |m.bufsByAddr| ==> m.bufsByAddr[i].heapBuf < |m.pools|
      modifies this
      ensures m == FreeBlock(old(m), block)
      ensures freed <==> RouteFrom(old(m), block, 0).Some?
    {
      var i := 0;
      while i < |m.bufsByAddr|
        invariant 0 <= i <= |m.bufsByAddr| && m == old(m) && RouteFrom(m, block, i) == RouteFrom(m, block, 0)
      {
        var pair := m.bufsByAddr[i];
        if block <= pair.lastAddr {
          m := m.(pools := m.pools[pair.heapBuf := FreeTo(m.pools[pair.heapBuf], block)]);
          return true;
        }
        i := i + 1;
      }
      return false;
    }
  }

  lemma LaterLarger(m: Multi, size: int, i: nat)
    requires BySize(m) && i < |m.bufsBySize| && size <= PoolAt(m, i).blockSize
    ensures forall j :: i + 1 <= j < |m.bufsBySize| ==> size <= PoolAt(m, j).blockSize
  {
    forall j | i + 1 <= j < |m.bufsBySize| ensures size <= PoolAt(m, j).blockSize {
      assert SizeAlignLeq(PoolAt(m, i), PoolAt(m, j));
    }
  }

  // ---------------------------------------------------------------- pools more than 2^31 apart

  /** bufsByAddr pairs every pool once with its last address, in whatever order. */
  ghost predicate PairsPools(m: Multi) {
    && (forall i :: 0 <= i < |m.bufsByAddr| ==> m.bufsByAddr[i].heapBuf < |m.pools|
                                                && m.bufsByAddr[i].lastAddr == EndAddr(m.pools[m.bufsByAddr[i].heapBuf])
                                                && 0 <= m.bufsByAddr[i].lastAddr < 0x1_0000_0000)
    && (forall h :: 0 <= h < |m.pools| ==> Paired(m, h))
    && (forall i, j :: 0 <= i < j < |m.bufsByAddr| ==> m.bufsByAddr[i].heapBuf != m.bufsByAddr[j].heapBuf)
  }

  /** Every block of every pool is routed to its own pool. */
  ghost predicate RoutesRight(m: Multi) {
    forall h, a :: 0 <= h < |m.pools| && IsBlock(m.pools[h], a) ==> RouteFrom(m, a, 0) == Some(h)
  }

  /** The search stops at an entry that is no later than any that is not below the block. */
  lemma {:induction false} RouteStops(m: Multi, block: int, i: nat, k: nat) returns (r: nat)
    requires i <= k < |m.bufsByAddr| && block <= m.bufsByAddr[k].lastAddr
    ensures i <= r <= k && RouteFrom(m, block, i) == Some(m.bufsByAddr[r].heapBuf)
    decreases k - i
  {
    if block <= m.bufsByAddr[i].lastAddr {
      r := i;
    } else {
      r := RouteStops(m, block, i + 1, k);
    }
  }

  /** Routing is right exactly if the last addresses ascend. */
  lemma RoutesRightAscending(m: Multi)
    requires PairsPools(m) && Apart(m) && forall h :: 0 <= h < |m.pools| ==> Valid(m.pools[h])
    ensures RoutesRight(m) <==> Ascending(m)
  {
    if Ascending(m) {
      PoolsNotEmpty(m);
      forall h, a | 0 <= h < |m.pools| && IsBlock(m.pools[h], a) ensures RouteFrom(m, a, 0) == Some(h) {
        BlockInside(m.pools[h], a);
        RouteOwner(m, h, a, 0);
      }
    }
    if RoutesRight(m) {
      forall i, j | 0 <= i < j < |m.bufsByAddr| ensures m.bufsByAddr[i].lastAddr <= m.bufsByAddr[j].lastAddr {
        var h := m.bufsByAddr[j].heapBuf;
        var a := BlockAt(m.pools[h], 0);
        assert IsBlock(m.pools[h], a);
        BlockInside(m.pools[h], a);
        assert RouteFrom(m, a, 0) == Some(h);
        if m.bufsByAddr[i].lastAddr > m.bufsByAddr[j].lastAddr {
          var r := RouteStops(m, a, 0, i);
        }
      }
    }
  }

  /**
   When free goes to the right pool: for pools anywhere in memory, in an array whose neighbours are in the order the
   comparison prescribes, every block of every pool is routed to its own pool if and only if the last addresses of
   neighbours are less than 2^31 apart (or exactly so, downwards).
   */
  lemma RoutesRightIff(m: Multi)
    requires PairsPools(m) && Apart(m) && forall h :: 0 <= h < |m.pools| ==> Valid(m.pools[h])
    requires forall i :: 0 < i < |m.bufsByAddr| ==> AddrPairCompare(m.bufsByAddr[i - 1], m.bufsByAddr[i]) <= 0
    ensures RoutesRight(m) <==>
              forall i :: 0 < i < |m.bufsByAddr| ==>
                -0x8000_0000 <= m.bufsByAddr[i - 1].lastAddr - m.bufsByAddr[i].lastAddr < 0x8000_0000
  {
    RoutesRightAscending(m);
    forall i | 0 < i < |m.bufsByAddr|
      ensures m.bufsByAddr[i - 1].lastAddr <= m.bufsByAddr[i].lastAddr <==>
              -0x8000_0000 <= m.bufsByAddr[i - 1].lastAddr - m.bufsByAddr[i].lastAddr < 0x8000_0000
    {
      CompareRightIff(m.bufsByAddr[i - 1], m.bufsByAddr[i]);
    }
    if forall i :: 0 < i < |m.bufsByAddr| ==> m.bufsByAddr[i - 1].lastAddr <= m.bufsByAddr[i].lastAddr {
      forall i, j | 0 <= i < j < |m.bufsByAddr| ensures m.bufsByAddr[i].lastAddr <= m.bufsByAddr[j].lastAddr {
        NeighboursAscend(m, i, j);
      }
    }
  }

  lemma {:induction false} NeighboursAscend(m: Multi, i: nat, j: nat)
    requires forall i :: 0 < i < |m.bufsByAddr| ==> m.bufsByAddr[i - 1].lastAddr <= m.bufsByAddr[i].lastAddr
    requires i <= j < |m.bufsByAddr|
    ensures m.bufsByAddr[i].lastAddr <= m.bufsByAddr[j].lastAddr
    decreases j - i
  {
    if i < j {
      NeighboursAscend(m, i, j - 1);
    }
  }

  /** So with every two entries in the order of the comparison, no two pools may be 2^31 or more apart. */
  lemma SortedRoutesRightIff(m: Multi)
    requires PairsPools(m) && Apart(m) && forall h :: 0 <= h < |m.pools| ==> Valid(m.pools[h])
    requires forall i, j :: 0 <= i < j < |m.bufsByAddr| ==> AddrPairCompare(m.bufsByAddr[i], m.bufsByAddr[j]) <= 0
    ensures RoutesRight(m) <==>
              forall i, j :: 0 <= i < j < |m.bufsByAddr| ==>
                -0x8000_0000 <= m.bufsByAddr[i].lastAddr - m.bufsByAddr[j].lastAddr < 0x8000_0000
  {
    RoutesRightAscending(m);
    forall i, j | 0 <= i < j < |m.bufsByAddr|
      ensures m.bufsByAddr[i].lastAddr <= m.bufsByAddr[j].lastAddr <==>
              -0x8000_0000 <= m.bufsByAddr[i].lastAddr - m.bufsByAddr[j].lastAddr < 0x8000_0000
    {
      CompareRightIff(m.bufsByAddr[i], m.bufsByAddr[j]);
    }
  }

  /** Such pools exist: one low and one more than 2^31 above it, and a live block of the low pool goes to the high one. */
  lemma FarPoolsMisroute() returns (m: Multi, block: int)
    ensures |m.bufsByAddr| == 2 && AddrPairCompare(m.bufsByAddr[0], m.bufsByAddr[1]) <= 0
    ensures |m.pools| == 2 && Apart(m) && Valid(m.pools[0]) && Valid(m.pools[1])
    ensures Out(m, 0, block) && RouteFrom(m, block, 0) == Some(1)
  {
    var low := Pool(0x1000, 16, 8, 1, [], 0, 0);
    var high := Pool(0x9000_0000, 16, 8, 1, [], 0, 0);
    m := Multi([low, high], [0, 1], [AddrPair(EndAddr(high), 1), AddrPair(EndAddr(low), 0)], false, false);
    block := 0x1000;
    assert BlockAt(low, 0) == block;
  }
}
